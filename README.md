# Advent of Code solvers, modelled in Dafny

This project models the puzzle solvers of the `aoc2024` and `aoc2025` crates, one Dafny module per day. Each solver reads one puzzle input as text and answers the puzzle's part one and, where the crate has one, its part two.

The centre of the 2024 crate is day 21 (`Keypads`). A code is typed on a numeric keypad by a robot, driven from a chain of directional keypads, each worked by a robot that the keypad above it drives. The model has both of the crate's solvers:
- the breadth-first simulator over the joint state of every arm and the output typed so far (`ShortestTypings`), proved to give shortest typings;
- the memoised cost oracle `move_and_click`, keyed by layer, start key and end key (`Oracle.MoveAndClick`), proved equal to its recursive definition `Cost`.

With no robot in between, the two are proved to agree. The oracle as written has three defects, recorded under Findings: it forbids the wrong cell, never advances the arm one layer down, and charges a round trip for staying in place. `CostAsWritten` follows the code as written, and `Cost` is the corrected oracle that the solver uses.

The other days are modelled the same way:
- parsing becomes a function with an explicit failure outcome wherever the Rust code returns an error or panics; the `nom` grammars are read in `nom`'s complete mode, and Left out names the inputs where the streaming `Parser::parse` of the source differs;
- pure computations become functions;
- loops that update variables, and structures updated in place, become methods and classes. Each is proved against a specification function, and lemmas state what the puzzle asks for (a shortest path, a count, a sum independent of hash-map order).

Shared helpers live in `Text` (digits, numbers, lines and words) and `Sorting`. Reading files, printing answers and timing are I/O and are not modelled; the puzzle input is a parameter of every solver.

## Model

| member | source | states |
|---|---|---|
| LocationLists.ParsePairs | aoc2024/src/problems/problem01.rs:17-24 | tokens 2i go to `left` and 2i+1 to `right`, both lists have half as many entries as there are tokens, and parsing fails exactly when one of the paired tokens is not a number |
| LocationLists.PairDistance | aoc2024/src/problems/problem01.rs:36 | the zipped sum of distances is never negative |
| LocationLists.Solve | aoc2024/src/problems/problem01.rs:33-37 | the answer, computed on the sorted lists, is never negative |
| LocationLists.SolveOrderIndependent | aoc2024/src/problems/problem01.rs:33-37 | two inputs whose columns hold the same ids in any order give the same answer |
| LocationLists.PairDistanceSymmetric | aoc2024/src/problems/problem01.rs:36 | exchanging the two lists does not change the sum of distances |
| LocationLists.PairDistanceSelf | aoc2024/src/problems/problem01.rs:36 | a list paired with itself has total distance 0 |
| Sorting.Insert | aoc2024/src/problems/problem01.rs:34-35 | inserting into a sorted list keeps it sorted and adds exactly one element |
| Sorting.Sort | aoc2024/src/problems/problem01.rs:34-35 | `sort()` yields a sorted permutation of its input |
| Sorting.SortedUnique | aoc2024/src/problems/problem01.rs:34-35 | there is only one sorted permutation of a list |
| Sorting.SortOrderIndependent | aoc2024/src/problems/problem01.rs:34-35 | lists with the same elements sort to the same list |
| Reports.ParseLines | aoc2024/src/problems/problem02.rs:16-23 | one report per line, each level the parsed token at its position; a bad token fails the whole parse |
| Reports.ParseLevels | aoc2024/src/problems/problem02.rs:18-21 | parsing succeeds exactly when every token is a number, and keeps their order |
| Reports.Check | aoc2024/src/problems/problem02.rs:34-45 | the early-return loop answers exactly `Safe`: every adjacent pair has the first pair's direction and differs by 1 to 3 |
| Reports.SafeIffGradual | aoc2024/src/problems/problem02.rs:34-45 | `Safe` holds exactly when the report is steadily increasing or steadily decreasing by steps of 1 to 3 |
| Reports.EqualNeighboursUnsafe | aoc2024/src/problems/problem02.rs:40-42 | two equal neighbours make a report unsafe |
| Reports.CountSafe | aoc2024/src/problems/problem02.rs:46 | the count exists exactly when no report is empty, and is at most the number of reports |
| Reports.Solve | aoc2024/src/problems/problem02.rs:33-47 | the loop returns `CountSafe` of the reports |
| Memory.ParseMulIff | aoc2024/src/problems/problem03.rs:19-35 | `mul` accepts a prefix exactly when it spells `mul(`, one to three digits, `,`, one to three digits, `)`; the operands are the digits' values and the rest is what follows |
| Memory.ParseMulExample | aoc2024/src/problems/problem03.rs:142-146 | `mul("mul(1,3)")` reads `Mul{1, 3}` and leaves nothing |
| Memory.ParseMulTooLong | aoc2024/src/problems/problem03.rs:23-33 | a four-digit operand is rejected: the digit run stops after three digits and `)` is missing |
| Memory.StepTooLong | aoc2024/src/problems/problem03.rs:148-159 | when `mul` fails the alternative skips exactly one character: `mul(2,1000)` gives `None` and leaves `ul(2,1000)` |
| Memory.SkipRun | aoc2024/src/problems/problem03.rs:45-48 | scanning text without any `m` yields one `None` per character and then continues |
| Memory.ScanPadded | aoc2024/src/problems/problem03.rs:45-48 | a well-formed `mul` between stretches without `m` is read as one `Some` among one `None` per skipped character |
| Memory.ScanExample | aoc2024/src/problems/problem03.rs:161-169 | scanning `aaaamul(1,2)aa` yields four `None`s, `Some(Mul{1, 2})`, two `None`s |
| Memory.InstructionsRender | aoc2024/src/problems/problem03.rs:94-101 | the part-two scanner reads any well-formed instructions written back to back as exactly those instructions, in order |
| Memory.MulsRender | aoc2024/src/problems/problem03.rs:45-50 | the part-one scanner reads every `mul` of such text and skips the `do()`/`don't()` switches |
| Memory.ScannersAgree | aoc2024/src/problems/problem03.rs:45-101 | on any memory the multiplications part two finds are exactly those part one finds, in the same order |
| Memory.EnabledStep | aoc2024/src/problems/problem03.rs:107-122 | the enabled state after an instruction: `do()` sets it, `don't()` clears it, a `mul` keeps it |
| Memory.SolvePartTwo | aoc2024/src/problems/problem03.rs:106-125 | the loop, starting enabled, returns the total of the products of exactly the multiplications not preceded by a `don't()` without a later `do()` |
| Memory.PartTwoBelowPartOne | aoc2024/src/problems/problem03.rs:61-125 | part two's total is at most part one's sum of all products, and equal when the memory holds no `don't()` |
| Memory.ProductSumAppend | aoc2024/src/problems/problem03.rs:61-63 | the sum of products over two lists is the sum of their sums |
| WordSearch.Parse | aoc2024/src/problems/problem04.rs:30-42 | the grid is the input's non-empty lines, so no row is empty |
| WordSearch.Rotate | aoc2024/src/problems/problem04.rs:9-17 | turning an r×c grid gives a c×r grid |
| WordSearch.RotateAt | aoc2024/src/problems/problem04.rs:9-17 | row `c` of the turned grid is column `c` of the grid read from the bottom up |
| WordSearch.Mirror | aoc2024/src/problems/problem04.rs:19-27 | mirroring keeps the dimensions and reverses every row |
| WordSearch.RotateTwice | aoc2024/src/problems/problem04.rs:9-17 | two turns read both rows and columns backwards |
| WordSearch.RotateFour | aoc2024/src/problems/problem04.rs:9-17 | four turns give the grid back |
| WordSearch.MirrorTwice | aoc2024/src/problems/problem04.rs:19-27 | mirroring is an involution |
| WordSearch.RotateExample | aoc2024/src/problems/problem04.rs:147-155 | `ABC`/`DEF` turns into `DA`/`EB`/`FC` |
| WordSearch.MirrorExample | aoc2024/src/problems/problem04.rs:158-163 | `ABC`/`DEF` mirrors into `CBA`/`FED` |
| WordSearch.CountGridHits | aoc2024/src/problems/problem04.rs:49-61 | the nested sums of 0/1 over rows and columns equal the number of positions where the match holds |
| WordSearch.CountHorizontal | aoc2024/src/problems/problem04.rs:49-61 | the count is the number of grid positions from which the word reads rightwards, though only the start columns that leave room are visited |
| WordSearch.CountDiagonal | aoc2024/src/problems/problem04.rs:63-75 | the count is the number of grid positions from which the word reads down and to the right |
| WordSearch.RightAfterTurnIsUp | aoc2024/src/problems/problem04.rs:76-86 | reading rightwards after a turn is reading upwards before it, which is how the four turns reach the other directions |
| WordSearch.SolvePartOne | aoc2024/src/problems/problem04.rs:76-86 | the answer is the sum, over the grid and its three successive turns, of the horizontal and diagonal `XMAS` counts |
| WordSearch.TurnFour | aoc2024/src/problems/problem04.rs:76-86 | after the four rounds the grid is back in its first orientation, so each orientation was counted exactly once |
| WordSearch.CountWindows | aoc2024/src/problems/problem04.rs:102-117 | the count is the number of positions where the pattern lies inside the grid and every non-`.` pattern character equals the grid character under it |
| WordSearch.CountMatch | aoc2024/src/problems/problem04.rs:102-117 | `count_match` as written counts no more windows than the pattern actually fits |
| WordSearch.SquareAgrees | aoc2024/src/problems/problem04.rs:102-117 | for a square pattern the column range as written counts the same windows |
| WordSearch.TallPatternMissed | aoc2024/src/problems/problem04.rs:107 | a pattern taller than wide misses windows in the last columns: `X`/`X` in `XX`/`XX` counts 1 of 2 |
| WordSearch.SolvePartTwo | aoc2024/src/problems/problem04.rs:118-131 | the answer is the sum, over the grid and its three successive turns, of the windows matching the `M.S`/`.A.`/`M.S` pattern |
| PrintQueue.Number | aoc2024/src/problems/problem05.rs:23-31 | a number is a non-empty run of digits whose value fits an `i32`; it consumes input |
| PrintQueue.NumberOf | aoc2024/src/problems/problem05.rs:23-31 | digits followed by a non-digit read as their value, leaving the rest |
| PrintQueue.OrderOf | aoc2024/src/problems/problem05.rs:33-41 | a rule line, two numbers joined by a bar and followed by a line ending, reads as `Order{a, b}` |
| PrintQueue.UpdateOf | aoc2024/src/problems/problem05.rs:43-49 | a line of comma-separated numbers reads as those pages, in order |
| PrintQueue.ParseInput | aoc2024/src/problems/problem05.rs:51-58 | a parsed input has at least one rule and at least one update, and every update holds a page |
| PrintQueue.ParseInputOf | aoc2024/src/problems/problem05.rs:51-58 | rule lines, an empty line and update lines read back as exactly those rules and updates |
| PrintQueue.Good | aoc2024/src/problems/problem05.rs:78-81 | the rule set holds a pair exactly when some rule line names it |
| PrintQueue.CorrectOnes | aoc2024/src/problems/problem05.rs:82-87 | part one keeps updates of the input in which no page has a rule putting it before an earlier page |
| PrintQueue.Middles | aoc2024/src/problems/problem05.rs:88-90 | each kept update contributes the page at index `len / 2` |
| PrintQueue.IncorrectOnes | aoc2024/src/problems/problem05.rs:111-116 | part two keeps updates of the input in which some page has a rule putting it before an earlier page |
| PrintQueue.BreaksRuleIff | aoc2024/src/problems/problem05.rs:111-116 | part two's `any`/`any` filter holds exactly when part one's `all`/`all` filter fails |
| PrintQueue.Partition | aoc2024/src/problems/problem05.rs:111-116 | the updates of part one and of part two together are the input's updates, each once |
| PrintQueue.Insert | aoc2024/src/problems/problem05.rs:117-125 | inserting a page adds exactly that page |
| PrintQueue.Sort | aoc2024/src/problems/problem05.rs:117-125 | sorting an update gives a permutation of it |
| PrintQueue.SortOrders | aoc2024/src/problems/problem05.rs:117-125 | when the rules order an update's pages totally, the sorted update breaks no rule |
| PrintQueue.SortKeepsInOrder | aoc2024/src/problems/problem05.rs:117-125 | an update breaking no rule is left unchanged by the sort |
| PrintQueue.SortChangesIff | aoc2024/src/problems/problem05.rs:111-125 | under a total order, the sort changes an update exactly when part two selects it |
| PrintQueue.SortedUnique | aoc2024/src/problems/problem05.rs:117-125 | under a total order only one arrangement of the pages breaks no rule, so the middle page does not depend on the sorting algorithm |
| PrintQueue.PartsAddUp | aoc2024/src/problems/problem05.rs:77-129 | part one plus part two is the sum of the middle pages of all updates after sorting |
| GuardPatrol.Rotate | aoc2024/src/problems/problem06.rs:12-19 | a turn always changes the direction |
| GuardPatrol.RotateFour | aoc2024/src/problems/problem06.rs:12-19 | four turns give the starting direction back, two do not |
| GuardPatrol.Step | aoc2024/src/problems/problem06.rs:33-40 | a step moves exactly one cell, keeps the direction, and goes up, down, left or right as the direction says |
| GuardPatrol.StepBack | aoc2024/src/problems/problem06.rs:12-40 | a step after a half turn returns to the cell the guard came from |
| GuardPatrol.Move | aoc2024/src/problems/problem06.rs:109-113 | facing a crate the guard turns in place; otherwise it takes the step |
| GuardPatrol.State | aoc2024/src/problems/problem06.rs:97-114 | the guard stays inside the grid in every round |
| GuardPatrol.SolvePartOne | aoc2024/src/problems/problem06.rs:96-116 | the answer is the number of distinct cells visited, start included, up to the first round whose next step leaves the grid; within the bound of rounds no earlier round leaves |
| GuardPatrol.SeenCells | aoc2024/src/problems/problem06.rs:97-115 | the start cell is counted, every counted cell is in the grid, and each round adds at most one cell |
| GuardPatrol.NeverOnCrate | aoc2024/src/problems/problem06.rs:109-113 | a guard starting on an empty cell never stands on a crate |
| GuardPatrol.TurnOrStep | aoc2024/src/problems/problem06.rs:103-114 | every round that does not end the walk either turns the guard in place or moves it one cell ahead |
| GuardPatrol.LastGuardIn | aoc2024/src/problems/problem06.rs:59-83 | the guard's column is that of the last guard character of its row |
| GuardPatrol.LastGuard | aoc2024/src/problems/problem06.rs:59-83 | the guard is the last guard character in reading order, facing the way it points; there is none exactly when no line holds a guard character |
| GuardPatrol.Parse | aoc2024/src/problems/problem06.rs:49-88 | a parsed map places the guard on an empty cell inside it |
| GuardPatrol.NoGuardIff | aoc2024/src/problems/problem06.rs:84-87 | parsing fails with `No guard` exactly when every character is known and none is a guard |
| Calibration.Number | aoc2024/src/problems/problem07.rs:19-27 | a number is a non-empty digit run whose value fits in an `i64`, and it consumes input |
| Calibration.ParseEquation | aoc2024/src/problems/problem07.rs:29-37 | a parsed equation has at least one number after the target |
| Calibration.ParseInput | aoc2024/src/problems/problem07.rs:39-45 | every parsed equation has at least one number |
| Calibration.ParseInputOf | aoc2024/src/problems/problem07.rs:19-45 | lines `target: n1 n2 ...` written with any numerals that fit in an `i64` parse back to exactly their equations |
| Calibration.Concat | aoc2024/src/problems/problem07.rs:93-95 | `concat(a, b)`, printing both numbers and parsing the result, is `a` shifted left by the number of decimal digits of `b`, plus `b` |
| Calibration.ConcatBounds | aoc2024/src/problems/problem07.rs:93-95 | a left operand 0 vanishes (`0 ‖ b == b`), and the result is at least ten times the left operand |
| Calibration.GoOne | aoc2024/src/problems/problem07.rs:65-71 | with every number at least 1 a successful search never passed the target: `+` and `*` only make the running value grow |
| Calibration.GoTwo | aoc2024/src/problems/problem07.rs:96-104 | the same for part two, where concatenation also only makes the running value grow |
| Calibration.GoOneIff | aoc2024/src/problems/problem07.rs:64-73 | part one's `go` holds exactly when some choice of `+` or `*` per gap, applied left to right, gives the target; with no numbers left it holds exactly when the running value is the target |
| Calibration.GoTwoIff | aoc2024/src/problems/problem07.rs:92-106 | part two's `go` holds exactly when some choice of `+`, `*` or concatenation per gap, applied left to right, gives the target |
| Calibration.OneThenTwo | aoc2024/src/problems/problem07.rs:64-106 | an equation valid in part one is valid in part two |
| Calibration.Solve | aoc2024/src/problems/problem07.rs:74-76 | the answer adds the targets of valid equations only: it is at most the sum of all targets, equal to it when all are valid, and 0 when none is |
| Calibration.SolveOneLeTwo | aoc2024/src/problems/problem07.rs:74-108 | part two's answer is at least part one's |
| Calibration.SolveAppend | aoc2024/src/problems/problem07.rs:74-76 | the answer over two groups of lines is the sum of their answers |
| Antennas.Parse | aoc2024/src/problems/problem08.rs:14-21 | the map keeps the non-empty lines; a cell is empty exactly for `.` and otherwise holds its character as the frequency |
| Antennas.Antinode | aoc2024/src/problems/problem08.rs:51 | part one's antinode lies beyond the second antenna, as far from it as the first antenna is |
| Antennas.Group | aoc2024/src/problems/problem08.rs:33-40 | the map from frequency to positions lists exactly the antennas of that frequency |
| Antennas.Mark | aoc2024/src/problems/problem08.rs:55 | setting a cell inside the grid adds it to the marked cells and leaves the others |
| Antennas.MarkRay | aoc2024/src/problems/problem08.rs:108-114 | the walk terminates for distinct antennas and marks exactly the cells of the line from the first antenna, in steps of their distance, that lie inside the grid; none when the first antenna is outside |
| Antennas.RayEnds | aoc2024/src/problems/problem08.rs:110-114 | once the line has left the grid it never comes back, so stopping at the first cell outside misses nothing |
| Antennas.MarkPairs | aoc2024/src/problems/problem08.rs:46-57 | every ordered pair of distinct antennas of one frequency marks its cells, and nothing else is marked |
| Antennas.MarkAll | aoc2024/src/problems/problem08.rs:45-59 | after the loop over all frequencies the grid is true exactly on the cells their pairs mark, whatever order the frequencies come in |
| Antennas.CountMarked | aoc2024/src/problems/problem08.rs:60-62 | the sum over the rows is the number of true cells, at most rows × columns |
| Antennas.UnionIsSpots | aoc2024/src/problems/problem08.rs:41-59 | after grouping, the marked cells are exactly the cells inside the grid that are an antinode of some pair of distinct same-frequency antennas |
| Antennas.Solve | aoc2024/src/problems/problem08.rs:31-63 | the answer of either part is the number of antinode cells inside the grid, at most rows × columns |
| Antennas.SpotsOneWithinTwo | aoc2024/src/problems/problem08.rs:45-116 | on a rectangular map every antinode of part one is one of part two, so part one's answer is at most part two's |
| Antennas.PairedAntennaIsSpot | aoc2024/src/problems/problem08.rs:101-116 | on a rectangular map, in part two both antennas of every pair are antinodes |
| Antennas.GcdDivides | aoc2024/src/problems/problem08.rs:79-85 | `gcd` divides both arguments, and is 0 only when both are |
| Antennas.GcdGreatest | aoc2024/src/problems/problem08.rs:79-85 | every common divisor of the arguments divides `gcd` |
| DiskCompaction.Parse | aoc2024/src/problems/problem09.rs:14-20 | only the first line is read; after trimming, it parses exactly when every character is a decimal digit, and each entry is that digit's value |
| DiskCompaction.Expand | aoc2024/src/problems/problem09.rs:29-33 | the loop appends, entry by entry, the blocks of file `i/2` for even entries and free blocks for odd ones |
| DiskCompaction.ExpandedLength | aoc2024/src/problems/problem09.rs:29-33 | the layout has as many blocks as the disk map's entries add up to |
| DiskCompaction.ExpandedIds | aoc2024/src/problems/problem09.rs:29-33 | file `k` occupies exactly as many blocks as entry `2k` says |
| DiskCompaction.ExpandedStart | aoc2024/src/problems/problem09.rs:34 | the first `compresed[0]` blocks belong to file 0, so the scan for a free block may start there |
| DiskCompaction.AdvanceStep | aoc2024/src/problems/problem09.rs:37-39 | skipping a file block keeps the loop invariant |
| DiskCompaction.PopStep | aoc2024/src/problems/problem09.rs:44-46 | dropping a free block from the end keeps the loop invariant |
| DiskCompaction.FillStep | aoc2024/src/problems/problem09.rs:43 | moving the last file block into the leftmost free block keeps the loop invariant |
| DiskCompaction.IdsFill | aoc2024/src/problems/problem09.rs:43 | filling a free block adds exactly that file id to the blocks' ids |
| DiskCompaction.Compact | aoc2024/src/problems/problem09.rs:35-47 | the loop, stopping also when every block is gone, ends with no free block left, every file id kept as often as in the layout, and the blocks equal to the reference compaction (file blocks stay, free blocks take the tail's blocks last first) |
| DiskCompaction.ScanFree | aoc2024/src/problems/problem09.rs:37-39 | the scan stops at the first free block at or after `pos_empty`, or at the length, passing only file blocks |
| DiskCompaction.NoFilesNeverStops | aoc2024/src/problems/problem09.rs:35-47 | as written, a layout without file blocks reaches no `break` within any number of rounds |
| DiskCompaction.CompactAsWritten | aoc2024/src/problems/problem09.rs:29-47 | when the loop as written stops, the disk is no longer than before and ends in a file block |
| DiskCompaction.EmptyFileNeverStops | aoc2024/src/problems/problem09.rs:29-47 | the disk map `02` lays out two free blocks, and the loop as written never stops on it |
| DiskCompaction.ChecksumAppend | aoc2024/src/problems/problem09.rs:49 | the checksum of two runs of blocks is the sum of their checksums, the second numbered after the first |
| DiskCompaction.Solve | aoc2024/src/problems/problem09.rs:28-50 | the answer is the checksum of the reference compaction of the layout |
| Trailheads.Parse | aoc2024/src/problems/problem10.rs:14-19 | the map is the non-empty lines, one row of heights each; it parses exactly when every character is a decimal digit, and every height lies between 0 and 9 |
| Trailheads.LayerHeight | aoc2024/src/problems/problem10.rs:45-55 | a cell reached by a trail of `k` steps lies on the map exactly `k` units above the start |
| Trailheads.LayerReachable | aoc2024/src/problems/problem10.rs:45-55 | a cell ends a trail of `k` steps exactly when it is reachable and `k` units higher |
| Trailheads.StepReachable | aoc2024/src/problems/problem10.rs:45-55 | a move to a neighbour inside the map, one unit higher, keeps the cell reachable |
| Trailheads.ClosedHoldsReachable | aoc2024/src/problems/problem10.rs:41-57 | a set of cells that holds the start and every step out of its members holds every reachable cell |
| Trailheads.TrailheadEnds | aoc2024/src/problems/problem10.rs:41-44 | from a height-0 cell the counted cells are exactly the ends of trails of nine steps |
| Trailheads.ScoreBound | aoc2024/src/problems/problem10.rs:41-44 | a trailhead's score is at most the number of height-9 cells |
| Trailheads.Visit | aoc2024/src/problems/problem10.rs:40 | marking a cell sets its `visited` entry and leaves every other one as it was |
| Trailheads.PopStep | aoc2024/src/problems/problem10.rs:41-44 | taking the next cell off the queue counts it exactly when its height is 9 |
| Trailheads.PushStep | aoc2024/src/problems/problem10.rs:52-55 | enqueueing an unvisited neighbour one unit higher keeps every enqueued cell reachable and enqueued once |
| Trailheads.TryMove | aoc2024/src/problems/problem10.rs:46-55 | a move is enqueued exactly when it stays inside the map, is unvisited and climbs one unit; afterwards that move's cell is enqueued if it is a trail step |
| Trailheads.AllTried | aoc2024/src/problems/problem10.rs:45 | the four moves tried cover every step of a trail out of the cell |
| Trailheads.Expand | aoc2024/src/problems/problem10.rs:45-56 | after the four moves every step out of the popped cell is enqueued |
| Trailheads.EndSearch | aoc2024/src/problems/problem10.rs:41-57 | when the queue is empty, the enqueued cells are exactly the reachable ones and the count is the number of distinct reachable 9s |
| Trailheads.Search | aoc2024/src/problems/problem10.rs:36-57 | every cell is enqueued at most once, the enqueued cells are exactly the cells reachable from the start, and `nines` is its score |
| Trailheads.SolveRow | aoc2024/src/problems/problem10.rs:32-60 | along a row, only height-0 cells start a search and their scores are added |
| Trailheads.Solve | aoc2024/src/problems/problem10.rs:28-63 | the answer is the sum of the scores of all height-0 cells in reading order |
| Trailheads.NoTrailheads | aoc2024/src/problems/problem10.rs:33-35 | a map without a height-0 cell scores 0 |
| Stones.IntToString | aoc2024/src/problems/problem11.rs:49 | a non-negative stone prints as its shortest decimal spelling; a negative one gets a leading minus sign |
| Stones.SplitSpelling | aoc2024/src/problems/problem11.rs:48-52 | a non-negative stone with an even number of digits splits into the values of the two halves of its spelling |
| Stones.HalvesValue | aoc2024/src/problems/problem11.rs:50-52 | the left half shifted by half the width, plus the right half, gives back the stone; the left half has exactly that many digits and the right half fewer |
| Stones.SplitHalves | aoc2024/src/problems/problem11.rs:48-56 | a non-negative stone of `2h` digits always splits, into a left half of exactly `h` digits and a right half below `10^h` that make up the stone |
| Stones.OddNoSplit | aoc2024/src/problems/problem11.rs:50-55 | a non-negative stone with an odd number of digits does not split |
| Stones.NegativeDigit | aoc2024/src/problems/problem11.rs:48-63 | a negative one-digit stone has a two-character spelling, but its left half is a lone minus sign that does not parse, so it is multiplied by 2024 |
| Stones.StepCases | aoc2024/src/problems/problem11.rs:57-64 | a blink turns 0 into 1, splits an even-width stone into its halves and multiplies any other non-negative stone by 2024 |
| Stones.CountAllAppend | aoc2024/src/problems/problem11.rs:73 | the counts of two rows of stones add up |
| Stones.CountBlink | aoc2024/src/problems/problem11.rs:71-74 | counting a row `k+1` blinks ahead is counting the blinked row `k` blinks ahead |
| Stones.CountIsLength | aoc2024/src/problems/problem11.rs:67-80 | what `go` computes is the length of the row after that many blinks |
| Stones.CountGrows | aoc2024/src/problems/problem11.rs:57-64 | no blink loses a stone, so a row never counts fewer stones than it starts with |
| Stones.Solver.constructor | aoc2024/src/problems/problem11.rs:44-46 | a new solver keeps the blink depth and starts with an empty cache, which trivially agrees with the blink counts |
| Stones.Solver.Go | aoc2024/src/problems/problem11.rs:67-77 | the result is the count for (stone, steps), every cache entry keeps holding the count for its key, old keys stay and the new key is added |
| Stones.Solver.Solve | aoc2024/src/problems/problem11.rs:78-80 | the answer sums the counts of the input stones at the solver's depth |
| Stones.Run | aoc2024/src/problems/problem11.rs:83-90 | with a fresh table the answer is the number of stones after `depth` blinks |
| Stones.Parse | aoc2024/src/problems/problem11.rs:15-22 | the input parses exactly when every whitespace-separated word is a signed integer, and then gives those integers in order |
| GardenRegions.RegionSelf | aoc2024/src/problems/problem12.rs:37-40 | a cell of the map lies in its own region |
| GardenRegions.RegionStep | aoc2024/src/problems/problem12.rs:43-53 | a region is closed under steps to an adjacent cell of the map holding the same plant |
| GardenRegions.RegionSym | aoc2024/src/problems/problem12.rs:43-53 | if `d` is in the region of `c`, then `c` is in the region of `d` |
| GardenRegions.RegionTrans | aoc2024/src/problems/problem12.rs:43-53 | a cell of a region of a cell of `c`'s region is in `c`'s region |
| GardenRegions.RegionsMeet | aoc2024/src/problems/problem12.rs:32-37 | every cell of a region has that same region, so regions partition the map |
| GardenRegions.RegionPlant | aoc2024/src/problems/problem12.rs:46 | every cell of a region lies on the map and holds the plant of its seed |
| GardenRegions.ClosedHoldsRegion | aoc2024/src/problems/problem12.rs:39-55 | any set that holds the seed and is closed under same-plant steps holds the whole region, so the region is the least such set |
| GardenRegions.FencesBefore | aoc2024/src/problems/problem12.rs:43-48 | at most one fenced side per move tried |
| GardenRegions.Fences | aoc2024/src/problems/problem12.rs:43-48 | a cell has at most four fenced sides |
| GardenRegions.FenceLeavesRegion | aoc2024/src/problems/problem12.rs:43-48 | a side of a region's cell is fenced exactly when the cell beyond it is outside the region |
| GardenRegions.PerimeterPick | aoc2024/src/problems/problem12.rs:41-48 | the perimeter of a set of cells is any one cell's fences plus the perimeter of the rest |
| GardenRegions.FenceSumSet | aoc2024/src/problems/problem12.rs:41-48 | the fences counted cell by cell over a list without repetition add up to the perimeter of the listed set |
| GardenRegions.LeaderFirst | aoc2024/src/problems/problem12.rs:32-37 | the scan finds a cell unvisited exactly when it is the first cell of its region in row-major order |
| GardenRegions.OneLeader | aoc2024/src/problems/problem12.rs:32-37 | two cells of one region that both lead it are the same cell |
| GardenRegions.SomeLeader | aoc2024/src/problems/problem12.rs:32-37 | every region has a leader, so every region is priced exactly once |
| GardenRegions.StartFlood | aoc2024/src/problems/problem12.rs:37-40 | the flood starts with its seed enqueued and nothing expanded |
| GardenRegions.PopStep | aoc2024/src/problems/problem12.rs:41-42 | taking a cell off the queue keeps the invariant and adds that cell's fences to the count |
| GardenRegions.PushStep | aoc2024/src/problems/problem12.rs:50-53 | enqueueing an unvisited same-plant neighbour keeps every enqueued cell in the region and enqueued once |
| GardenRegions.SeenStep | aoc2024/src/problems/problem12.rs:50 | a visited same-plant neighbour was enqueued by this flood, never by an earlier one |
| GardenRegions.EndFlood | aoc2024/src/problems/problem12.rs:41-55 | when the queue runs dry the enqueued cells are exactly the region, each once, and their fences are its perimeter |
| GardenRegions.TryMove | aoc2024/src/problems/problem12.rs:43-53 | one move counts a fence exactly when the side is fenced, and otherwise enqueues the neighbour if it is unvisited, keeping the flood invariant |
| GardenRegions.Expand | aoc2024/src/problems/problem12.rs:43-54 | after the four moves the cell is closed and the count of its fences is added |
| GardenRegions.FloodStep | aoc2024/src/problems/problem12.rs:41-54 | one round of the `while let` loop keeps area = cells taken off and perimeter = their fences |
| GardenRegions.Flood | aoc2024/src/problems/problem12.rs:37-55 | the flood from a leader marks exactly its region, whose cells no earlier flood marked, and returns its area and perimeter |
| GardenRegions.PassVisited | aoc2024/src/problems/problem12.rs:34-36 | a visited cell is not a leader, adds no price, and skipping it marks nothing new |
| GardenRegions.PassLeader | aoc2024/src/problems/problem12.rs:34-37 | an unvisited cell leads its region, which no earlier flood touched, and passing it marks exactly that region |
| GardenRegions.PriceAt | aoc2024/src/problems/problem12.rs:34-56 | one cell of the scan adds that cell's price and leaves visited exactly the regions with a cell scanned so far |
| GardenRegions.FloodAt | aoc2024/src/problems/problem12.rs:37-56 | at an unvisited cell the scan adds its region's area times perimeter |
| GardenRegions.ScanRow | aoc2024/src/problems/problem12.rs:33-57 | one row of the scan adds the prices of the leaders in that row |
| GardenRegions.Scan | aoc2024/src/problems/problem12.rs:30-59 | the scan adds area times perimeter once per region and leaves every cell visited |
| GardenRegions.Solve | aoc2024/src/problems/problem12.rs:28-60 | `solve` returns the sum over all regions of area times perimeter |
| GardenRegions.Parse | aoc2024/src/problems/problem12.rs:14-19 | the map is the non-empty lines of the input |
| ClawMachines.CheapestUnique | aoc2024/src/problems/problem13.rs:89 | a machine has at most one least price, so the minimum either solver reports is well defined |
| ClawMachines.LeastCost | aoc2024/src/problems/problem13.rs:89 | every machine that can be won has a least price, no larger than the price of any winning way |
| ClawMachines.Fewest | aoc2024/src/problems/problem13.rs:89 | the fewest tokens that win a winnable machine; 0 for a machine that cannot be won |
| ClawMachines.TDivExact | aoc2024/src/problems/problem13.rs:126-128 | Rust's truncating `/` gives back `q` exactly when the dividend is `d * q`, for every sign of `d` and `q` |
| ClawMachines.Minimum | aoc2024/src/problems/problem13.rs:89 | `min` of the kept prices: `None` exactly for an empty list, otherwise an element no larger than any other |
| ClawMachines.PressesBounded | aoc2024/src/problems/problem13.rs:76 | every winning way presses A at most `target.x / a.x` and at most `target.y / a.y` times, so the search bound loses nothing |
| ClawMachines.Remainder | aoc2024/src/problems/problem13.rs:79-86 | for a winning way, what is left after A's presses divides evenly by B's move on both axes, giving back B's presses |
| ClawMachines.SkipStep | aoc2024/src/problems/problem13.rs:80-86 | a count of A skipped by either test has no winning completion |
| ClawMachines.PushStep | aoc2024/src/problems/problem13.rs:83-87 | a count of A that passes both tests has exactly one completion, and pushing its price keeps every winning price found so far |
| ClawMachines.SearchEnd | aoc2024/src/problems/problem13.rs:76-89 | after the search, the minimum of the kept prices is `None` exactly when the machine cannot be won, and otherwise its least price |
| ClawMachines.Check | aoc2024/src/problems/problem13.rs:75-90 | `check` returns `None` exactly when no non-negative presses win the machine, and otherwise the fewest tokens over all ways of winning it |
| ClawMachines.Check2 | aoc2024/src/problems/problem13.rs:117-134 | `check2` returns a price only when non-negative presses win the machine at that price; it requires a non-zero determinant and a non-zero `a.x`, since it divides by both |
| ClawMachines.Cramer | aoc2024/src/problems/problem13.rs:118-127 | eliminating A from a winning way leaves the determinant times B's presses equal to `a.x * target.y - a.y * target.x` |
| ClawMachines.OneWay | aoc2024/src/problems/problem13.rs:117-128 | when the buttons are not parallel there is at most one winning way |
| ClawMachines.Check2Complete | aoc2024/src/problems/problem13.rs:92-134 | wherever it does not divide by zero, `check2` returns `None` exactly for machines that cannot be won and otherwise their fewest tokens, so it agrees with `check` and part one's `BAD` line is never printed |
| ClawMachines.SolvePartOne | aoc2024/src/problems/problem13.rs:92-103 | part one's answer is the sum over the machines of their fewest tokens, 0 for a machine that cannot be won |
| ClawMachines.PartTwoPrices | aoc2024/src/problems/problem13.rs:137-142 | part two's `check2` sum equals the same sum of fewest tokens |
| ClawMachines.Relocate | aoc2024/src/problems/problem13.rs:148-157 | part two keeps every button and moves every prize by 10000000000000 on both axes |
| ClawMachines.SkipNonDigits | aoc2024/src/problems/problem13.rs:34-36 | skipping stops at a digit or at the end of the text |
| ClawMachines.Number | aoc2024/src/problems/problem13.rs:21-29 | a number is a non-empty digit run whose value fits in `i64` |
| ClawMachines.SkipOf | aoc2024/src/problems/problem13.rs:34-36 | skipping a run of non-digits stops exactly at the digit after it |
| ClawMachines.PointRoundTrip | aoc2024/src/problems/problem13.rs:31-39 | a point line (lead-in without digits, numeral, non-empty separator without digits, numeral, newline) parses back to its two values |
| ClawMachines.ClawRoundTrip | aoc2024/src/problems/problem13.rs:41-44 | three point lines and an empty line parse back to the machine |
| ClawMachines.InputRoundTrip | aoc2024/src/problems/problem13.rs:46-51 | machines written out, each followed by an empty line, parse back to the same machines |
| ClawMachines.LastEmptyLineNeeded | aoc2024/src/problems/problem13.rs:41-51 | if the last machine is not followed by an empty line, the whole input fails to parse |
| Robots.TRem | aoc2024/src/problems/problem14.rs:87 | Rust's `%` on `i64` leaves a remainder smaller than the divisor in magnitude, with the dividend's sign |
| Robots.Wrap | aoc2024/src/problems/problem14.rs:86-88 | `wrap` always lands inside `0..size` |
| Robots.WrapIsMod | aoc2024/src/problems/problem14.rs:86-88 | `wrap` equals the mathematical remainder of `position + velocity * steps` modulo the size, also when that sum is negative |
| Robots.WrapStep | aoc2024/src/problems/problem14.rs:86-88 | jumping `steps + 1` seconds ahead lands where one wrapped second after `steps` seconds lands, so the jump is the same as walking second by second around the edges |
| Robots.Quadrant | aoc2024/src/problems/problem14.rs:90-114 | every robot gets one of the five buckets |
| Robots.QuadrantCases | aoc2024/src/problems/problem14.rs:93-113 | buckets 0 to 3 are exactly the four quadrants (left-top, left-bottom, right-top, right-bottom, split at `n / 2` and `m / 2`), and bucket 4 exactly the robots on the middle column or row |
| Robots.Quadrants | aoc2024/src/problems/problem14.rs:90-114 | one bucket per robot, in input order |
| Robots.SolvePartOne | aoc2024/src/problems/problem14.rs:76-117 | with 100 seconds, `count[q]` ends as the number of robots in bucket `q`, and the answer is the product of the counts of buckets 0 to 3, leaving out the middle lines |
| Robots.Skip | aoc2024/src/problems/problem14.rs:38-40 | skipping stops at a digit, a minus sign or the end of the text |
| Robots.NumberRun | aoc2024/src/problems/problem14.rs:25-33 | `take_while` takes the longest run of digits and minus signs |
| Robots.Number | aoc2024/src/problems/problem14.rs:25-33 | a number is such a run that parses as an `i64` |
| Robots.SkipOf | aoc2024/src/problems/problem14.rs:38-40 | skipping a run without digits or minus signs stops exactly after it |
| Robots.NumberOf | aoc2024/src/problems/problem14.rs:25-33 | a numeral, with or without a minus sign, followed by anything else reads as its value |
| Robots.PointRoundTrip | aoc2024/src/problems/problem14.rs:35-43 | a point written as lead-in, numeral, separator, numeral parses back to its two values |
| Robots.RobotRoundTrip | aoc2024/src/problems/problem14.rs:45-48 | a robot's line (two points and a newline) parses back to the robot |
| Robots.InputRoundTrip | aoc2024/src/problems/problem14.rs:50-55 | robots written one per line parse back to the same robots |
| Warehouse.Offset | aoc2024/src/problems/problem15.rs:13-20 | every move changes exactly one coordinate, by one |
| Warehouse.HorizontalKeepsRow | aoc2024/src/problems/problem15.rs:13-27 | a direction is horizontal exactly when it keeps the row, and vertical exactly when it keeps the column |
| Warehouse.ParseCell | aoc2024/src/problems/problem15.rs:58-67 | a map character parses exactly when it is one of `.#O@` |
| Warehouse.ParseRow | aoc2024/src/problems/problem15.rs:56-69 | a map line parses exactly when every character does, cell by cell |
| Warehouse.ParseRows | aoc2024/src/problems/problem15.rs:55-71 | the map parses exactly when every line does, row by row |
| Warehouse.FindStart | aoc2024/src/problems/problem15.rs:55-65 | the start is an `@` with no later `@` in reading order (the source overwrites `start`); none exactly when the map has no `@` |
| Warehouse.LastIndex | aoc2024/src/problems/problem15.rs:57-65 | the index found holds the character and no later index does; none exactly when the line lacks it |
| Warehouse.ParseMove | aoc2024/src/problems/problem15.rs:75-81 | a move character parses exactly when it is one of `v^<>` |
| Warehouse.ParseMoves | aoc2024/src/problems/problem15.rs:72-83 | the moves parse exactly when every character of every move line is an arrow |
| Warehouse.ParseLineMoves | aoc2024/src/problems/problem15.rs:74-82 | a move line parses exactly when every character does, in order |
| Warehouse.ParseInput | aoc2024/src/problems/problem15.rs:49-89 | an input without a blank line fails (the source panics on `s[1]`); otherwise the non-empty map lines and the move lines are parsed |
| Warehouse.ParseSections | aoc2024/src/problems/problem15.rs:53-88 | fails exactly on a foreign map character, a foreign move character or a map without `@`; the robot then stands on an empty cell at the last `@` |
| Warehouse.PutAt | aoc2024/src/problems/problem15.rs:112-113 | writing a cell changes that cell and no other, and keeps the map's shape |
| Warehouse.CellsSwap | aoc2024/src/problems/problem15.rs:254-256 | exchanging two cells keeps the multiset of cells |
| Warehouse.Boxes | aoc2024/src/problems/problem15.rs:103-106 | the count of boxes in a row in front of the robot, ending at the first cell that is not a box |
| Warehouse.BoxesRun | aoc2024/src/problems/problem15.rs:103-106 | every cell of the counted run is a box |
| Warehouse.StepKeepsWalls | aoc2024/src/problems/problem15.rs:101-116 | a move keeps the walls where they are and the robot on an empty cell inside the walls |
| Warehouse.StepKeepsCells | aoc2024/src/problems/problem15.rs:101-116 | a move keeps the number of boxes, walls and empty cells |
| Warehouse.StepShiftsRun | aoc2024/src/problems/problem15.rs:107-115 | when no wall stops it, the robot advances one cell, leaves that cell empty and the whole run of boxes lies one cell further on |
| Warehouse.StepBlocked | aoc2024/src/problems/problem15.rs:109-110 | a wall behind the run leaves the map and the robot unchanged |
| Warehouse.Walk | aoc2024/src/problems/problem15.rs:101-116 | after any sequence of moves the walls are unchanged, the cell counts are kept and the robot stands on an empty cell |
| Warehouse.GpsNonNegative | aoc2024/src/problems/problem15.rs:117-124 | the GPS sum of a map is never negative |
| Warehouse.Move | aoc2024/src/problems/problem15.rs:102-115 | the loop counting boxes and the two writes compute exactly the move `Step` |
| Warehouse.SolvePartOne | aoc2024/src/problems/problem15.rs:97-125 | the answer is the GPS sum of the boxes after all moves |
| Warehouse.WidenRow | aoc2024/src/problems/problem15.rs:162-169 | a widened row is twice as long and each cell becomes its pair of wide cells |
| Warehouse.WidenInput | aoc2024/src/problems/problem15.rs:159-174 | every row widened, the start column doubled, the moves unchanged |
| Warehouse.WidenValid | aoc2024/src/problems/problem15.rs:159-174 | a walled map with the robot on an empty cell widens to a walled map whose boxes come in left-right pairs, with the robot on an empty cell |
| Warehouse.Dual | aoc2024/src/problems/problem15.rs:217-223 | the other half exists exactly for a box half, in the same row |
| Warehouse.DualFacts | aoc2024/src/problems/problem15.rs:217-223 | the other half of a box is the opposite half, and its other half is the first one |
| Warehouse.ShiftF | aoc2024/src/problems/problem15.rs:243-269 | a shift that does not panic keeps the map's shape |
| Warehouse.ShiftSound | aoc2024/src/problems/problem15.rs:225-269 | when `can_shift` holds, `shift` does not panic, and its result is the map with exactly the boxes of the pushed cone moved one cell along the direction |
| Warehouse.ShiftCells | aoc2024/src/problems/problem15.rs:243-269 | a shift that `can_shift` allows keeps the multiset of cells |
| Warehouse.ShiftWorks | aoc2024/src/problems/problem15.rs:225-275 | when `can_shift` holds, the shift keeps the walls, the pairing of boxes and the cell counts, and empties the cell the robot moves into |
| Warehouse.Step2 | aoc2024/src/problems/problem15.rs:274-279 | a wide move keeps the walls, the pairing and the cell counts, and the robot stays or advances one cell |
| Warehouse.Step2Moves | aoc2024/src/problems/problem15.rs:274-279 | the robot advances exactly when `can_shift` holds, and a blocked move changes nothing |
| Warehouse.Walk2 | aoc2024/src/problems/problem15.rs:272-280 | after any sequence of wide moves the walls, the pairing and the cell counts are kept |
| Warehouse.PartTwoMut.constructor | aoc2024/src/problems/problem15.rs:209-215 | the object holds the widened map, the start and the moves |
| Warehouse.PartTwoMut.Shift | aoc2024/src/problems/problem15.rs:243-269 | the in-place shift leaves the map equal to `ShiftF` of the old map, the robot and the moves untouched |
| Warehouse.PartTwoMut.ShiftAcrossM | aoc2024/src/problems/problem15.rs:250-256 | the horizontal branch: the far boxes shifted first, then the near box slid one cell |
| Warehouse.PartTwoMut.ShiftAlongM | aoc2024/src/problems/problem15.rs:257-266 | the vertical branch: both halves' cones shifted first, then the box lifted one row |
| Warehouse.PartTwoMut.Turn | aoc2024/src/problems/problem15.rs:273-279 | one loop iteration changes the map and the robot as `Step2` does |
| Warehouse.PartTwoMut.Solve | aoc2024/src/problems/problem15.rs:271-290 | after the loop the map and the robot are those of `Walk2` over all moves, and the answer is the GPS sum of the left halves |
| Warehouse.SolvePartTwo | aoc2024/src/problems/problem15.rs:180-296 | the answer is the GPS sum after widening the map and walking every move |
| ReindeerMaze.Turns | aoc2024/src/problems/problem16.rs:23-34 | four clockwise quarter turns give back the direction, a counter-clockwise turn undoes a clockwise one, and the three facings (same, clockwise, counter-clockwise) differ |
| ReindeerMaze.AllDirectionsComplete | aoc2024/src/problems/problem16.rs:36-38 | `Direction::any` lists every direction exactly once |
| ReindeerMaze.Candidates | aoc2024/src/problems/problem16.rs:151-159 | every candidate is a move to a different state costing 1000 for a quarter turn in place and 1 for a step onto an empty cell, ahead or (searching backwards) behind |
| ReindeerMaze.EdgeIsCandidate | aoc2024/src/problems/problem16.rs:151-159 | every move out of a state is among its candidates, so the search offers all of them |
| ReindeerMaze.ReachesStep | aoc2024/src/problems/problem16.rs:151-159 | a move extends a walk by its cost |
| ReindeerMaze.RelaxedEdge | aoc2024/src/problems/problem16.rs:160-168 | once a state's candidates are offered, every move out of it leads to a state known at most that much further |
| ReindeerMaze.StaleRelaxed | aoc2024/src/problems/problem16.rs:150-168 | a queue entry popped above its state's distance offers nothing better than what is known |
| ReindeerMaze.BaseInsert | aoc2024/src/problems/problem16.rs:160-168 | writing a strictly better distance and queueing it keeps the search invariant and never raises an entry |
| ReindeerMaze.RelaxingSkip | aoc2024/src/problems/problem16.rs:161-165 | a candidate no better than the known distance is skipped and the invariant keeps |
| ReindeerMaze.RelaxingInsert | aoc2024/src/problems/problem16.rs:166-167 | a strictly better candidate is recorded and queued, lowering no other entry and never on a stale pop |
| ReindeerMaze.Relax | aoc2024/src/problems/problem16.rs:151-168 | after the candidates of a popped state are offered, that state and all settled states are relaxed, entries only fell, and a stale pop changes neither map nor queue |
| ReindeerMaze.Frontier | aoc2024/src/problems/problem16.rs:150-169 | along any walk, either every state is settled and the last one's distance is at most the walk's score, or an unsettled state on it is queued at most at that score |
| ReindeerMaze.Finished | aoc2024/src/problems/problem16.rs:150-170 | with the queue empty, every walk ends at a state whose distance is at most the walk's score |
| ReindeerMaze.PoppedBelow | aoc2024/src/problems/problem16.rs:150 | the least queue entry is at most the score of any walk to an unsettled state |
| ReindeerMaze.MinExists | aoc2024/src/problems/problem16.rs:150 | a non-empty queue has a least entry in the order of (distance, row, column, facing) |
| ReindeerMaze.PopFirst | aoc2024/src/problems/problem16.rs:150 | `pop_first` removes and returns the least entry |
| ReindeerMaze.PoppedFresh | aoc2024/src/problems/problem16.rs:150 | an entry popped at its state's distance belongs to a state not settled before |
| ReindeerMaze.PoppedStale | aoc2024/src/problems/problem16.rs:150 | an entry popped above its state's distance belongs to a state already settled and relaxed |
| ReindeerMaze.SettleOne | aoc2024/src/problems/problem16.rs:150-169 | each fresh pop settles one more of the finitely many states, so the loop ends |
| ReindeerMaze.Expand | aoc2024/src/problems/problem16.rs:150-168 | one round keeps the search invariant, settles the popped state, and either settles a new state or shrinks the queue |
| ReindeerMaze.Plant | aoc2024/src/problems/problem16.rs:144-149 | every seed starts in the map at distance 0 and in the queue |
| ReindeerMaze.ShortestLeast | aoc2024/src/problems/problem16.rs:143-171 | exact distances are the least score of a walk, and states no walk reaches have none |
| ReindeerMaze.Dijkstra | aoc2024/src/problems/problem16.rs:143-171 | `dijkstra` returns seeds at 0 and, for every state, the least score of a walk from a seed, and no entry for states no walk reaches |
| ReindeerMaze.OptimalUnique | aoc2024/src/problems/problem16.rs:102-129 | the least score to the end is unique |
| ReindeerMaze.Arrived | aoc2024/src/problems/problem16.rs:106-109 | the first end state popped is popped at the least score of any walk to the end |
| ReindeerMaze.Exhausted | aoc2024/src/problems/problem16.rs:106-128 | a queue that runs dry before an end state is popped means no walk reaches the end |
| ReindeerMaze.SolvePartOne | aoc2024/src/problems/problem16.rs:102-129 | part one returns the least score of a walk from the start facing right to the end cell in any facing, and panics exactly when no walk reaches it |
| ReindeerMaze.WalkPath | aoc2024/src/problems/problem16.rs:150-168 | a walk is a sequence from a seed whose consecutive states are one move apart |
| ReindeerMaze.CostSplit | aoc2024/src/problems/problem16.rs:155-158 | a walk's score is the sum of the scores of its two parts split at any state |
| ReindeerMaze.CostReverse | aoc2024/src/problems/problem16.rs:155-158 | a walk read backwards has the same score |
| ReindeerMaze.EdgeFlip | aoc2024/src/problems/problem16.rs:151-158 | a move of the forward search, reversed, is a move of the backward search (multiplier -1) and the other way round |
| ReindeerMaze.PathOpen | aoc2024/src/problems/problem16.rs:157 | every state on a walk from an empty cell is on an empty cell |
| ReindeerMaze.PathReverse | aoc2024/src/problems/problem16.rs:151-158 | a walk read backwards is a walk of the search in the other direction |
| ReindeerMaze.Join | aoc2024/src/problems/problem16.rs:174-191 | walks meeting at a state join into one walk whose score is the sum |
| ReindeerMaze.Through | aoc2024/src/problems/problem16.rs:174-191 | a state with a forward and a backward distance lies on a walk from the start to the end scoring their sum |
| ReindeerMaze.Around | aoc2024/src/problems/problem16.rs:174-191 | every state on a walk from the start to the end has both distances, adding up to at most the walk's score |
| ReindeerMaze.MinDist | aoc2024/src/problems/problem16.rs:176-178 | the least distance over the end states, `None` (a panic) when there are none or one is missing |
| ReindeerMaze.MinDistOptimal | aoc2024/src/problems/problem16.rs:175-178 | that least distance is the least score of a walk from the start to the end |
| ReindeerMaze.MissingUnreachable | aoc2024/src/problems/problem16.rs:177 | an end state is missing from the distances exactly when no walk reaches it |
| ReindeerMaze.HitOnBestWalk | aoc2024/src/problems/problem16.rs:181-189 | a cell where some facing's two distances add up to the optimum lies on a cheapest walk |
| ReindeerMaze.BestWalkHit | aoc2024/src/problems/problem16.rs:181-189 | a cell on a cheapest walk has a facing whose two distances add up to the optimum |
| ReindeerMaze.OptimalCellsAreBest | aoc2024/src/problems/problem16.rs:181-191 | the cells the count adds up are exactly the cells on some cheapest walk |
| ReindeerMaze.SolvePartTwo | aoc2024/src/problems/problem16.rs:174-192 | part two returns the number of cells on some cheapest walk from the start to the end, and panics exactly when an end state cannot be reached |
| ReindeerMaze.LastIn | aoc2024/src/problems/problem16.rs:64-80 | the last column of a given character on a line, or none |
| ReindeerMaze.LastOf | aoc2024/src/problems/problem16.rs:62-82 | the last cell holding a character in reading order (later ones overwrite earlier), or none exactly when no cell holds it |
| ReindeerMaze.AllFacingsExactly | aoc2024/src/problems/problem16.rs:88-92 | the end states are exactly the four states on the end cell |
| ReindeerMaze.Row | aoc2024/src/problems/problem16.rs:65-79 | one cell per character |
| ReindeerMaze.Parsed | aoc2024/src/problems/problem16.rs:59-94 | a parsed maze has one row per non-empty line, walls exactly at `#`, the start facing right at the last `S`, the end states on the last `E`, and both on empty cells |
| ReindeerMaze.ParseFails | aoc2024/src/problems/problem16.rs:64-82 | parsing fails exactly on an unknown character, a missing `S` or a missing `E` |
| Computer.Combo | aoc2024/src/problems/problem17.rs:87-95 | operands 0 to 3 stand for themselves and 4, 5, 6 for registers A, B, C; the `unreachable!` panic (`None`) happens exactly for operands above 6 |
| Computer.Execute | aoc2024/src/problems/problem17.rs:97-127 | one arm of the `match` on the opcode has the effect of the instruction semantics `Apply`: new registers, new instruction pointer, new output, or the loop's `break` |
| Computer.ExecRunning | aoc2024/src/problems/problem17.rs:96-128 | a round that does not break leaves the rest of the run to the updated machine |
| Computer.Run | aoc2024/src/problems/problem17.rs:80-131 | `PartOne::solve` returns exactly the output of the run of the program from A, B, C, ip 0 and empty output, within the allowed number of rounds |
| Computer.HaltsWhen | aoc2024/src/problems/problem17.rs:96-128 | the loop breaks exactly when ip or ip+1 is outside the program or the opcode is 8 or more |
| Computer.CrashesWhen | aoc2024/src/problems/problem17.rs:96-124 | a round panics exactly on opcodes 0, 2, 5, 6, 7 with a combo operand above 6 |
| Computer.NextIp | aoc2024/src/problems/problem17.rs:107-127 | opcode 3 with A not 0 jumps to its operand without the +2; every other executed instruction moves ip on by 2 |
| Computer.Prints | aoc2024/src/problems/problem17.rs:116-118 | only opcode 5 appends to the output, and it appends exactly one value below 8 |
| Computer.Registers | aoc2024/src/problems/problem17.rs:101-115 | opcode 1 XORs B with the literal operand and 4 XORs B with C, leaving A and C; opcodes 3 and 5 leave every register alone |
| Computer.ComboRegisters | aoc2024/src/problems/problem17.rs:98-124 | opcodes 0, 6, 7 store A shifted right by the combo operand into A, B, C and touch no other register; 2 stores the combo operand mod 8 into B; 5 prints it mod 8 |
| Computer.ShrLe | aoc2024/src/problems/problem17.rs:99 | a right shift never makes a value larger |
| Computer.XorBelow | aoc2024/src/problems/problem17.rs:102 | the XOR of two values of k bits has k bits |
| Computer.StepFits | aoc2024/src/problems/problem17.rs:98-124 | registers below 2^k stay below 2^k for every k of at least 8 (so `u64` registers never overflow): no instruction makes a register wider |
| Computer.ExecOutput | aoc2024/src/problems/problem17.rs:96-130 | every printed value is below 8 and what was printed stays at the front of the output |
| Computer.ExecMoreFuel | aoc2024/src/problems/problem17.rs:96-128 | a run that ended within some number of rounds ends the same way with any larger allowance |
| Computer.TestOutput | aoc2024/src/problems/problem17.rs:80-131 | part one prints only values below 8 |
| Computer.OrAbove | aoc2024/src/problems/problem17.rs:158 | the bitwise or of c and `d << s` is `c + d * 2^s` when c has fewer than s bits |
| Computer.Spread | aoc2024/src/problems/problem17.rs:157-159 | each candidate gives eight values, one per new digit |
| Computer.SpreadHas | aoc2024/src/problems/problem17.rs:157-159 | the values of a candidate are exactly the candidate with a digit 0 to 7 put in at the shift |
| Computer.Widen | aoc2024/src/problems/problem17.rs:156-159 | the `flat_map` gives eight candidates for every old one |
| Computer.WidenHas | aoc2024/src/problems/problem17.rs:156-159 | a value is among the widened candidates exactly when it is an old candidate with a new digit below 8 put in at the shift |
| Computer.KeepHas | aoc2024/src/problems/problem17.rs:160-162 | the filter of round i fails exactly when some candidate's run crashes or does not end, and otherwise keeps exactly the candidates whose first i printed values agree with the program |
| Computer.QuinesHas | aoc2024/src/problems/problem17.rs:163-167 | the answers pushed in a round are exactly its candidates whose output is the whole program |
| Computer.Collect | aoc2024/src/problems/problem17.rs:163-167 | the push loop appends the candidates whose output equals the program, in order |
| Computer.Min | aoc2024/src/problems/problem17.rs:171 | `min` returns an element that is at most every element |
| Computer.SearchStep | aoc2024/src/problems/problem17.rs:154-168 | a round replaces the candidates by the filtered widened ones and adds its answers; a failing round fails the search |
| Computer.SearchFails | aoc2024/src/problems/problem17.rs:154-168 | once a round fails, every later round has failed |
| Computer.StartBelow | aoc2024/src/problems/problem17.rs:153 | the first candidates 0 to 255 have 8 bits |
| Computer.DigitBelow | aoc2024/src/problems/problem17.rs:155-159 | a digit below 8 put in above the s bits of a candidate gives a value of s + 3 bits |
| Computer.RoundBelow | aoc2024/src/problems/problem17.rs:154-162 | a round turns candidates of 8 + 3i bits into candidates of 8 + 3(i+1) bits |
| Computer.NextBelow | aoc2024/src/problems/problem17.rs:154-162 | the bound on the candidates carries from round i to round i + 1 |
| Computer.CandidatesBelow | aoc2024/src/problems/problem17.rs:153-162 | after i rounds every candidate has at most 8 + 3i bits, so each round's digit lands above every bit already set and the bitwise or is an addition |
| Computer.AnswersAreQuines | aoc2024/src/problems/problem17.rs:163-167 | every answer collected makes the program print exactly itself |
| Computer.PartTwoSound | aoc2024/src/problems/problem17.rs:147-172 | part two's result makes the program print itself and is the least of all answers collected |
| Computer.SolvePartTwo | aoc2024/src/problems/problem17.rs:147-172 | `PartTwo::solve` with `candidates` reassigned each round and `answers` pushed returns the least answer after one round per program value, and fails (`unwrap` on nothing, or a failing test) exactly where the search does |
| Text.Tag | aoc2024/src/problems/problem17.rs:43-44 | `tag` succeeds only on text that starts with the tag, and leaves the rest |
| Computer.Number | aoc2024/src/problems/problem17.rs:20-28 | `number` reads a non-empty digit run into a value the target integer type holds, consuming it |
| Computer.Register | aoc2024/src/problems/problem17.rs:41-49 | `parse_reg` reads a `u64` after the register label and before a newline |
| Computer.MoreValues | aoc2024/src/problems/problem17.rs:37-39 | the rest of `separated_list1` reads only `u8` values |
| Computer.Values | aoc2024/src/problems/problem17.rs:37-39 | `separated_list1` reads at least one value, every one a `u8` |
| Computer.ProgramLine | aoc2024/src/problems/problem17.rs:55-57 | after the registers, an empty line and `Program: ` lead to a non-empty program of bytes |
| Computer.Parse | aoc2024/src/problems/problem17.rs:30-60 | a parsed puzzle has `u64` registers and a non-empty program of `u8` values |
| Computer.NumberOf | aoc2024/src/problems/problem17.rs:20-28 | a numeral followed by anything but a digit reads as its value |
| Text.TagOf | aoc2024/src/problems/problem17.rs:43-44 | a tag at the front of the text is consumed |
| Computer.MoreCons | aoc2024/src/problems/problem17.rs:38 | a comma and a numeral continue the list |
| Computer.ValuesCons | aoc2024/src/problems/problem17.rs:38 | a numeral starts the list |
| Computer.MoreOf | aoc2024/src/problems/problem17.rs:38 | comma-separated numerals after the first read back as their values up to where the list stops |
| Computer.StopsHere | aoc2024/src/problems/problem17.rs:38 | text starting with neither a digit nor a comma ends the list |
| Computer.StopsAtComma | aoc2024/src/problems/problem17.rs:38 | a comma not followed by a `u8` ends the list before the comma |
| Computer.ValuesThen | aoc2024/src/problems/problem17.rs:37-39 | numerals joined by commas read back as their values when the list stops after them |
| Computer.ValuesRoundTrip | aoc2024/src/problems/problem17.rs:37-39 | read in `nom`'s complete mode, numerals joined by commas read back as their values, whether the text then ends, goes on with other text, or has a comma with no `u8` after it (the streaming source rejects the first case, see Left out) |
| Computer.ProgramLineOf | aoc2024/src/problems/problem17.rs:55-57 | the program line of a written puzzle reads back as its values |
| Computer.RegisterOf | aoc2024/src/problems/problem17.rs:41-49 | a register line reads back as its value |
| Computer.ParseRoundTrip | aoc2024/src/problems/problem17.rs:30-60 | the text of a puzzle (three register lines, an empty line, the program line) parses back to its registers and program |
| RamRun.Bytes | aoc2024/src/problems/problem18.rs:28-31 | `filter_map` keeps at most one position per line, in line order |
| RamRun.NoCommaDropped | aoc2024/src/problems/problem18.rs:29 | a line without a comma yields no position (`split_once` fails) |
| RamRun.BytesDropLine | aoc2024/src/problems/problem18.rs:28-31 | a trailing line without a comma does not change the parsed list |
| RamRun.FormatRoundTrip | aoc2024/src/problems/problem18.rs:131 | printing a position as `y,x` and parsing it back (x from the second number, y from the first) gives the same position |
| RamRun.BytesRoundTrip | aoc2024/src/problems/problem18.rs:28-31 | parsing the lines written for any list of positions gives that list back |
| RamRun.Fall | aoc2024/src/problems/problem18.rs:49-52 | the field is `size` by `size`; marking the first `prefix` bytes succeeds exactly when each lies inside the grid (otherwise the index panics), and then the marked cells are exactly the fallen set |
| RamRun.OpenWalk | aoc2024/src/problems/problem18.rs:53-72 | with nothing fallen every cell (x, y) is reached in x + y steps |
| RamRun.OpenExit | aoc2024/src/problems/problem18.rs:128-134 | with no byte fallen the exit is reachable, so `check(0)` holds |
| RamRun.ReachableFewer | aoc2024/src/problems/problem18.rs:97-126 | removing fallen bytes keeps every reachable cell reachable (reachability is monotone in the prefix) |
| RamRun.Predecessor | aoc2024/src/problems/problem18.rs:57-72 | a cell at shortest distance d > 0 has a neighbour at shortest distance d - 1 |
| RamRun.LogBound | aoc2024/src/problems/problem18.rs:57-72 | each cell enters the queue at most once, so the search pops at most size * size entries |
| RamRun.Complete | aoc2024/src/problems/problem18.rs:57-72 | once the queue is empty, every cell reachable in k steps has been given a distance of at most k |
| RamRun.DistanceOf | aoc2024/src/problems/problem18.rs:57-72 | when the queue is empty, the recorded distance of a cell is present exactly when it is reachable, and is then its shortest walk length |
| RamRun.Expand | aoc2024/src/problems/problem18.rs:58-71 | trying the four moves of a popped cell keeps the breadth-first invariant (queue sorted by distance, each entry a real walk, every move from popped cells enqueued) and keeps `dist` equal to the log of enqueued cells |
| RamRun.Advance | aoc2024/src/problems/problem18.rs:57-72 | one pop-and-expand round keeps the invariant, and the number of rounds is bounded by the grid size |
| RamRun.Search | aoc2024/src/problems/problem18.rs:54-72 | after the loop each `dist[x][y]` is `Some(d)` exactly when (x, y) is reachable, with d the length of a shortest walk |
| RamRun.SolvePartOne | aoc2024/src/problems/problem18.rs:48-74 | the answer exists exactly when the first `prefix` bytes land inside the grid and the exit is reachable (otherwise an index or `unwrap` panic), and it is the shortest walk length from (0, 0) to the exit |
| RamRun.Reaches | aoc2024/src/problems/problem18.rs:102-125 | the early-exit search returns true exactly when the exit is reachable |
| RamRun.Check | aoc2024/src/problems/problem18.rs:97-126 | `check(prefix)` is defined exactly when the first `prefix` bytes land inside the grid, and then says whether the exit stays reachable |
| RamRun.LastOpenLargest | aoc2024/src/problems/problem18.rs:129-133 | no prefix longer than the one the backward scan stops at keeps the exit reachable |
| RamRun.LastOpenReachable | aoc2024/src/problems/problem18.rs:129-133 | the prefix the backward scan stops at keeps the exit reachable |
| RamRun.Threshold | aoc2024/src/problems/problem18.rs:128-135 | for a non-empty list, the prefixes of length j that keep the exit reachable are exactly those with j up to the scan's stopping point |
| RamRun.SolvePartTwo | aoc2024/src/problems/problem18.rs:128-135 | the answer exists exactly when the list is non-empty and all but the last byte land inside the grid, and it is the byte at the largest `i` with `check(i)` true, printed `y,x` |
| Towels.Parse | aoc2024/src/problems/problem19.rs:16-21 | parsing fails exactly when the text has no blank line; the designs are the non-empty lines after it |
| Towels.ParseTowels | aoc2024/src/problems/problem19.rs:18-19 | the towels are the text before the first blank line split on ", ": joined back with ", " they give that text |
| Towels.Trie.constructor | aoc2024/src/problems/problem19.rs:49-51 | a new trie is a lone root node for the empty path, holding no word |
| Towels.Trie.TryGoPath | aoc2024/src/problems/problem19.rs:39-41 | looking up `c` under the node of path p succeeds exactly when p + c is a path of the trie, and gives that path's node |
| Towels.PrefixClosed | aoc2024/src/problems/problem19.rs:53-59 | every prefix of a path in the trie is a path in the trie |
| Towels.Grow | aoc2024/src/problems/problem19.rs:35-37 | adding a missing child keeps the trie well formed (each path has one node, each node's edges lead to its one-character extensions, terminal nodes are exactly the inserted strings) |
| Towels.Trie.Go | aoc2024/src/problems/problem19.rs:35-37 | `go` returns the node of p + c, creating it when missing; existing nodes and the inserted set are unchanged |
| Towels.Trie.Insert | aoc2024/src/problems/problem19.rs:53-59 | after `insert(s)` the node reached by s is terminal and s is inserted; nodes are only added, never moved or removed |
| Towels.Trie.Prefixes | aoc2024/src/problems/problem19.rs:61-75 | `prefixes(s)` returns the lengths of the inserted strings that are prefixes of s, shortest first (the early `break` loses none) |
| Towels.Trie.Unmatched | aoc2024/src/problems/problem19.rs:64-72 | once a character has no edge, no longer prefix of s was inserted, so stopping there is safe |
| Towels.MatchesHas | aoc2024/src/problems/problem19.rs:61-75 | a length j is listed exactly when j is at least 1, at most the length of s, and s[..j] was inserted |
| Towels.MatchesIncreasing | aoc2024/src/problems/problem19.rs:64-69 | the listed lengths are strictly increasing |
| Towels.LayoutsSound | aoc2024/src/problems/problem19.rs:118-128 | every enumerated layout uses non-empty towels that concatenate to the design |
| Towels.LayoutsComplete | aoc2024/src/problems/problem19.rs:118-128 | every layout of the design with non-empty towels is enumerated |
| Towels.LayoutsDistinct | aoc2024/src/problems/problem19.rs:118-128 | no layout is enumerated twice |
| Towels.LayoutsCount | aoc2024/src/problems/problem19.rs:118-128 | the count `Ways` equals the number of enumerated layouts, so it counts distinct layouts |
| Towels.ComposedWays | aoc2024/src/problems/problem19.rs:84-128 | a design can be laid out exactly when its number of layouts is positive |
| Towels.PartialStep | aoc2024/src/problems/problem19.rs:122-125 | processing position i adds the layouts of design[..i] to every entry i + j where design[i..i + j] is a towel |
| Towels.Spread | aoc2024/src/problems/problem19.rs:123-125 | one round of `reachable[i + j] += reachable[i]` turns the table for positions before i into the table for positions up to i |
| Towels.CountWays | aoc2024/src/problems/problem19.rs:118-128 | part two's `check` returns the number of layouts of the design with non-empty towels |
| Towels.Reach | aoc2024/src/problems/problem19.rs:92-94 | from a reachable position, marking every matched length keeps entry k true exactly when design[..k] has a layout whose last towel starts before i + 1 |
| Towels.CanMake | aoc2024/src/problems/problem19.rs:84-97 | part one's `check` is true exactly when the design splits into a sequence of inserted towels |
| Towels.Build | aoc2024/src/problems/problem19.rs:99-131 | inserting every towel gives a trie whose inserted set is exactly the towels |
| Towels.SolvePartOne | aoc2024/src/problems/problem19.rs:98-102 | part one counts the designs that can be laid out |
| Towels.SolvePartTwo | aoc2024/src/problems/problem19.rs:129-133 | part two sums the number of layouts over the designs |
| Towels.PossibleAtMostArrangements | aoc2024/src/problems/problem19.rs:98-133 | part one's answer never exceeds part two's |
| RaceTrack.ParseCell | aoc2024/src/problems/problem20.rs:30-42 | a character parses exactly when it is one of `.#SE`, and only `#` is a wall |
| RaceTrack.ParseRow | aoc2024/src/problems/problem20.rs:29-43 | a line parses exactly when every character does, cell by cell |
| RaceTrack.ParseRows | aoc2024/src/problems/problem20.rs:28-44 | the map parses exactly when every non-empty line does, line by line |
| RaceTrack.LastIn | aoc2024/src/problems/problem20.rs:33-39 | the column found holds the mark and no later column does; none exactly when the line lacks it |
| RaceTrack.LastMark | aoc2024/src/problems/problem20.rs:33-46 | the recorded start or finish is the last mark in reading order (`Option::insert` overwrites); none exactly when no line has it |
| RaceTrack.Parse | aoc2024/src/problems/problem20.rs:21-50 | parsing succeeds exactly when every character is one of `.#SE` and there is an `S` and an `E` |
| RaceTrack.ParsedEnds | aoc2024/src/problems/problem20.rs:33-40 | the start and the finish of a parsed map are open cells |
| RaceTrack.InsideAt | aoc2024/src/problems/problem20.rs:59-62 | `inside` holds exactly for non-negative coordinates below the number of rows and the first row's width |
| RaceTrack.ReachedOpen | aoc2024/src/problems/problem20.rs:73-79 | only the start of a search and open cells are ever reached |
| RaceTrack.Predecessor | aoc2024/src/problems/problem20.rs:69-85 | a cell at shortest distance d > 0 is one move from a cell at shortest distance d - 1 |
| RaceTrack.Dist | aoc2024/src/problems/problem20.rs:64-87 | the reference distance: present exactly when the cell is reachable, and then the length of a shortest walk |
| RaceTrack.LogBound | aoc2024/src/problems/problem20.rs:80-83 | each cell enters the queue at most once, so the search pops at most n * m entries |
| RaceTrack.Complete | aoc2024/src/problems/problem20.rs:69-85 | once the queue is empty, every cell reachable in k moves was given a distance of at most k |
| RaceTrack.DistanceOf | aoc2024/src/problems/problem20.rs:69-85 | once the queue is empty, the recorded distance of a cell is present exactly when it is reachable, and is its shortest walk length |
| RaceTrack.Record | aoc2024/src/problems/problem20.rs:81 | writing a new cell's distance keeps `dist` equal to the log of enqueued cells |
| RaceTrack.TryMove | aoc2024/src/problems/problem20.rs:71-83 | one move skips cells outside or walls, enqueues an unseen neighbour at distance + 1, and keeps the breadth-first invariant |
| RaceTrack.Expand | aoc2024/src/problems/problem20.rs:70-84 | trying the four moves of a popped cell closes it: every step out of it is enqueued at most one further |
| RaceTrack.Begin | aoc2024/src/problems/problem20.rs:65-68 | before the loop only the start has a distance, 0, and it is the whole queue |
| RaceTrack.Advance | aoc2024/src/problems/problem20.rs:69-85 | one pop-and-expand round keeps the invariant, and the number of rounds is bounded by the grid size |
| RaceTrack.Bfs | aoc2024/src/problems/problem20.rs:64-87 | afterwards every `dist[x][y]` is the length of a shortest walk from the start of the search, or `None` when there is none |
| RaceTrack.WallUnreached | aoc2024/src/problems/problem20.rs:77-79 | a wall other than the search's start never gets a distance |
| RaceTrack.DistOfStep | aoc2024/src/problems/problem20.rs:81 | the start has distance 0 and every other reached cell has a neighbour one closer |
| RaceTrack.Saving | aoc2024/src/problems/problem20.rs:97-110 | a cheat's saving, when it counts, is positive and leaves room for the two moves of the jump |
| RaceTrack.CheatOnTrack | aoc2024/src/problems/problem20.rs:103-106 | a cheat that saves anything leaves from the start or an open cell and lands on the finish or an open cell |
| RaceTrack.AtLeastAppend | aoc2024/src/problems/problem20.rs:115-121 | the number of savings reaching the threshold adds up over concatenation |
| RaceTrack.CheatsIn | aoc2024/src/problems/problem20.rs:95-113 | a cheat is collected by the first i rows exactly when its cell lies in them, its jump is one of the four and it saves at least 100 |
| RaceTrack.CheatsAll | aoc2024/src/problems/problem20.rs:95-113 | the cheats collected row by row are exactly the cheats of the whole grid |
| RaceTrack.AllCount | aoc2024/src/problems/problem20.rs:95-121 | the number of listed savings reaching 100 is the number of distinct cheats that save at least 100 |
| RaceTrack.Bump | aoc2024/src/problems/problem20.rs:107 | `entry(k).or_insert(0) += 1` adds k to the keys, raises its count by one and leaves every other count alone |
| RaceTrack.HistogramBump | aoc2024/src/problems/problem20.rs:107 | bumping a saving keeps the map equal to the multiset of savings met so far |
| RaceTrack.TryCheat | aoc2024/src/problems/problem20.rs:97-111 | one jump adds its saving to the histogram exactly when it lands inside, both ends have a distance and it is shorter than the race |
| RaceTrack.CheatsFrom | aoc2024/src/problems/problem20.rs:97-111 | the four jumps out of a cell add their savings, in order |
| RaceTrack.CheatsInRow | aoc2024/src/problems/problem20.rs:96-112 | a row adds the savings of its cells, in order |
| RaceTrack.Shortcuts | aoc2024/src/problems/problem20.rs:92-113 | the histogram holds, for each saving, how many cheats achieve it |
| RaceTrack.SumLarge | aoc2024/src/problems/problem20.rs:115-121 | the final `filter_map` and `sum` add the counts of the savings of at least 100, whatever order the map yields them in |
| RaceTrack.LargeSum | aoc2024/src/problems/problem20.rs:115-121 | summing a histogram's entries at or above 100 counts the savings that reach 100 |
| RaceTrack.Solve | aoc2024/src/problems/problem20.rs:88-122 | `None` (the `unwrap` panic) exactly when the finish is unreachable; otherwise the number of cheats, each a cell and one of four jumps, that save at least 100 moves over the shortest race |
| Keypads.ToIsDisplacement | aoc2024/src/problems/problem21.rs:55-61 | `Pos::to` is the displacement that `Pos::plus` undoes, and it is zero exactly when the two positions are equal |
| Keypads.BetweenIsDisplacement | aoc2024/src/problems/problem21.rs:269-271 | adding `Vector::to(v, w)` to `v` gives `w` |
| Keypads.Offset | aoc2024/src/problems/problem21.rs:14-21 | every direction moves an arm by exactly one cell along exactly one axis |
| Keypads.Shifted | aoc2024/src/problems/problem21.rs:47-54 | the shifted position lies at the direction's offset from the old one |
| Keypads.ExtraClicks | aoc2024/src/problems/problem21.rs:277-285 | the extra presses plus the number of axes moved along equal the Manhattan length (`len`, lines 273-275) |
| Keypads.ButtonPosIsKey | aoc2024/src/problems/problem21.rs:23-30 | `button_pos` of each direction, seen from the `A` key, is the key that moves in that direction |
| Keypads.Machine | aoc2024/src/problems/problem21.rs:86-110 | `layers` directional keypads, then the numeric keypad last |
| Keypads.GapIsTheHole | aoc2024/src/problems/problem21.rs:75-107 | inside a keypad's grid, a cell holds no key exactly when it is that keypad's gap |
| Keypads.Start | aoc2024/src/problems/problem21.rs:112-119 | every arm starts on its keypad's `A` key and nothing is typed |
| Keypads.Go1 | aoc2024/src/problems/problem21.rs:121-141 | a move succeeds exactly when the new cell holds a key and then shifts only that arm; `Type` appends its character; pressing `A` over a gap fails; every success types one character or moves one arm at this layer or deeper, and keeps every arm on a key |
| Keypads.Go | aoc2024/src/problems/problem21.rs:142-144 | a human press keeps the number of arms and extends the output by at most one character |
| Keypads.Run | aoc2024/src/problems/problem21.rs:190-218 | a sequence of human presses keeps the number of arms |
| Keypads.DeadEndStaysDead | aoc2024/src/problems/problem21.rs:182-210 | once the output starts no code, no further presses make it a code, so pruning dead ends loses no answer |
| Keypads.ShortestTypings | aoc2024/src/problems/problem21.rs:190-219 | every answer is a code of the input, typed by exactly that many presses, with no shorter typing; codes are answered at most once; when the queue runs empty, every code that can be typed is answered |
| Keypads.Record | aoc2024/src/problems/problem21.rs:196-199 | a state whose output is a pending code records that code with its distance and removes it from the pending set; otherwise nothing changes |
| Keypads.Expand | aoc2024/src/problems/problem21.rs:200-217 | after the five presses are tried, every live successor of the state is discovered at most one step further, and only new states are queued, at distance + 1 |
| Keypads.SearchStep | aoc2024/src/problems/problem21.rs:195-218 | taking the head of the queue and expanding it keeps the breadth-first invariant (queue ordered, two levels, every processed state closed) |
| Keypads.NoShorterTyping | aoc2024/src/problems/problem21.rs:195-199 | a code first seen at the head of the queue has no shorter typing |
| Keypads.AllAnswered | aoc2024/src/problems/problem21.rs:195-218 | when the queue is empty, every code that some key sequence types has been answered |
| Keypads.ParseCodes | aoc2024/src/problems/problem21.rs:152-167 | the input parses exactly when every non-empty line holds only digits and `A`, and then the codes are those lines |
| Keypads.NumericPart | aoc2024/src/problems/problem21.rs:222-225 | the numeric part is the code without its last character, read as a decimal number |
| Keypads.ComplexityPermutation | aoc2024/src/problems/problem21.rs:222-225 | the summed complexity does not depend on the order in which the `HashMap` yields the answers |
| Keypads.ToCircularPath | aoc2024/src/problems/problem21.rs:318-328 | the loop builds the legs from the origin through the points and back to the origin (`CircularFrom`) |
| Keypads.VisitsCircular | aoc2024/src/problems/problem21.rs:318-328 | the legs of a circular path, walked from the first point, visit every later point and end back at the origin |
| Keypads.ToPaths2 | aoc2024/src/problems/problem21.rs:314-342 | a straight move has one route and a move around a corner two |
| Keypads.CandidatesStraight | aoc2024/src/problems/problem21.rs:329-332 | a straight move goes down to its one arrow key and back, and moves the arm in one leg |
| Keypads.CandidatesCorner | aoc2024/src/problems/problem21.rs:333-340 | a corner move has the horizontal-first and the vertical-first route, each pressing its arrow keys in its own order |
| Keypads.DownWalksOnKeys | aoc2024/src/problems/problem21.rs:314-342 | every route's walk one layer down stays on keys of the directional keypad and ends on `A` |
| Keypads.Survivors | aoc2024/src/problems/problem21.rs:405-412 | a route survives exactly when the arm it moves never points at the gap |
| Keypads.SurvivorsNonEmpty | aoc2024/src/problems/problem21.rs:402-420 | a move between two keys always keeps at least one route, so the `min().unwrap()` never fails in the corrected oracle |
| Keypads.CostAtLeastDistance | aoc2024/src/problems/problem21.rs:394-426 | moving an arm and pressing costs at least one press per cell moved plus one |
| Keypads.CostOfFirstRobot | aoc2024/src/problems/problem21.rs:394-426 | for the first robot the cost is exactly one press per cell moved plus one |
| Keypads.CostOfStaying | aoc2024/src/problems/problem21.rs:394-426 | pressing the key the arm already points at costs one human press at every layer |
| Keypads.CostGrows | aoc2024/src/problems/problem21.rs:394-426 | one more robot in the chain never makes a move cheaper |
| Keypads.CostFromBest | aoc2024/src/problems/problem21.rs:402-420 | a move costs the cheapest surviving route's walk one layer down, plus the extra presses of its lengths |
| Keypads.Oracle.constructor | aoc2024/src/problems/problem21.rs:353-359 | a fresh oracle for `layers` robots with an empty cache |
| Keypads.Oracle.MoveAndClick | aoc2024/src/problems/problem21.rs:394-426 | the memoised result equals the oracle `Cost`, is cached under its layer and end points, and the cache only grows |
| Keypads.Oracle.CheapestSurvivor | aoc2024/src/problems/problem21.rs:402-420 | the minimum over the routes that avoid the gap of their walk cost one layer down |
| Keypads.Oracle.Allowed | aoc2024/src/problems/problem21.rs:386-412 | a route is allowed exactly when the arm never points at the gap along it |
| Keypads.Oracle.Walk | aoc2024/src/problems/problem21.rs:414-418 | the walk one layer down costs the sum of its moves, the arm advancing after each one |
| Keypads.Oracle.TypeCode | aoc2024/src/problems/problem21.rs:428-455 | typing a code from the numeric `A` costs `CodeCost`, the sum of the moves between its keys |
| Keypads.Oracle.Solve | aoc2024/src/problems/problem21.rs:457-469 | the answer is the sum over distinct codes of their numeric part times their cost |
| Keypads.Oracle.SumComplexities | aoc2024/src/problems/problem21.rs:465-468 | the sum of numeric part times length over the answers |
| Keypads.KeyPos | aoc2024/src/problems/problem21.rs:429-445 | the position found holds the key typing that character; only `.` lies on the gap |
| Keypads.CodeCostFromAtLeastLength | aoc2024/src/problems/problem21.rs:428-455 | typing a code costs at least one press per character |
| Keypads.CodeCostWithoutRobots | aoc2024/src/problems/problem21.rs:428-455 | with no robot in between, a code costs its route length on the numeric keypad plus one press per character |
| Keypads.CodeCostGrows | aoc2024/src/problems/problem21.rs:428-455 | one more robot never makes a code cheaper |
| Keypads.TypingCostsRoute | aoc2024/src/problems/problem21.rs:121-144 | any key sequence that types a code on the numeric keypad alone is at least its route length plus one press per character |
| Keypads.TypeNumeric | aoc2024/src/problems/problem21.rs:121-144 | the numeric keypad alone types every code with exactly its route length plus one press per character |
| Keypads.CodeCostIsShortestTyping | aoc2024/src/problems/problem21.rs:428-455 | with no robot in between, the oracle's cost of a code is the length of a shortest typing, the distance the search reports |
| Keypads.ShortestIsUnique | aoc2024/src/problems/problem21.rs:190-219 | two shortest typings of the same code have the same length |
| Keypads.SearchAgreesWithOracle | aoc2024/src/problems/problem21.rs:190-219 | with no robot in between, every answer of the search equals the oracle's cost of its code |
| Keypads.RunAppend | aoc2024/src/problems/problem21.rs:142-144 | running two key sequences one after the other is running their concatenation |
| Keypads.Distinct | aoc2024/src/problems/problem21.rs:460-462 | each code once, the same set of codes as the input (the answers are a `HashMap`) |
| Keypads.Priced | aoc2024/src/problems/problem21.rs:460-462 | each code paired with its cost, in input order |
| Keypads.ForbiddenAsWritten | aoc2024/src/problems/problem21.rs:386-392 | `is_pos_allowed` as written forbids the gap on the numeric keypad but the `A` key, not the gap, on a directional one |
| Keypads.CostAsWrittenFromBest | aoc2024/src/problems/problem21.rs:402-421 | the written oracle prices a move as the `min()` over the candidates that `is_pos_allowed` lets through, plus `extra_clicks` of the move |
| Keypads.BestAsWrittenIsMin | aoc2024/src/problems/problem21.rs:403-421 | the `min()` over the surviving candidates, when defined, is at most the walk below of each of them, and each of those walks is defined |
| Keypads.CostAsWritten | aoc2024/src/problems/problem21.rs:394-426 | with no robot left the written oracle charges one press |
| Keypads.AsWrittenDefined | aoc2024/src/problems/problem21.rs:402-420 | on every call the solver makes, the written oracle always finds a route, so `min().unwrap()` does not panic |
| Keypads.AsWrittenCrossesGap | aoc2024/src/problems/problem21.rs:386-392 | as written, moving a directional arm from `A` to `<` keeps the route over the gap |
| Keypads.AsWrittenWalkLeavesKeypad | aoc2024/src/problems/problem21.rs:414-418 | as written, `pos_down` never advances, so a step of the walk below is priced from `A` to a cell outside the keypad |
| Keypads.AsWrittenStayingCostsTwo | aoc2024/src/problems/problem21.rs:329-332 | as written, pressing the key under the arm again costs two presses with no robot between, where the corrected oracle charges one |
| MonkeyMarket.ParseSecret | aoc2024/src/problems/problem22.rs:16 | a word parses exactly when it is a decimal number below 2^64, to that number |
| MonkeyMarket.Parse | aoc2024/src/problems/problem22.rs:14-17 | the input parses exactly when every non-empty line is a `u64`, one secret per line |
| MonkeyMarket.Scramble | aoc2024/src/problems/problem22.rs:36 | the first mixing step stays below 2^24 |
| MonkeyMarket.Mix | aoc2024/src/problems/problem22.rs:35-40 | a mixing round stays below 2^24 |
| MonkeyMarket.MixExample | aoc2024/src/problems/problem22.rs:138-143 | one round from 123 gives 15887950 |
| MonkeyMarket.MixOf | aoc2024/src/problems/problem22.rs:36-38 | a round equals the value reached through its three mix-and-prune steps |
| MonkeyMarket.Prng.constructor | aoc2024/src/problems/problem22.rs:30-32 | the generator keeps its seed and starts in it |
| MonkeyMarket.Prng.Next | aoc2024/src/problems/problem22.rs:34-41 | the state advances by exactly one mixing round, the result is the new state (below 2^24) and the seed is unchanged |
| MonkeyMarket.Secret | aoc2024/src/problems/problem22.rs:34-41 | after one or more rounds the state is below 2^24 |
| MonkeyMarket.SecretAdd | aoc2024/src/problems/problem22.rs:34-41 | advancing `j` rounds then `k` rounds is advancing `j + k` rounds |
| MonkeyMarket.Final | aoc2024/src/problems/problem22.rs:57-62 | what one buyer contributes is below 2^24 |
| MonkeyMarket.Generate | aoc2024/src/problems/problem22.rs:57-62 | the closure returns the secret after `steps` rounds, and 0 when there are none |
| MonkeyMarket.TotalBounds | aoc2024/src/problems/problem22.rs:55-64 | the part-one sum is below 2^24 per buyer, and 0 when there are no steps |
| MonkeyMarket.SolvePartOne | aoc2024/src/problems/problem22.rs:55-64 | part one is the sum over the buyers of each one's secret after `steps` rounds |
| MonkeyMarket.Bananas | aoc2024/src/problems/problem22.rs:81-84 | a price is a digit from 0 to 9 |
| MonkeyMarket.Zip | aoc2024/src/problems/problem22.rs:94-96 | zipping `n` prices gives `n - 1` pairs |
| MonkeyMarket.ChangesSnoc | aoc2024/src/problems/problem22.rs:86-97 | one more step adds exactly one change, the last price minus the one before, paired with the last price |
| MonkeyMarket.Prices | aoc2024/src/problems/problem22.rs:87-93 | the loop collects exactly `n` prices |
| MonkeyMarket.PricesAt | aoc2024/src/problems/problem22.rs:90-93 | the `k`-th price collected is the last digit of the secret after `k` rounds |
| MonkeyMarket.ZipPrices | aoc2024/src/problems/problem22.rs:94-96 | zipping the collected prices gives, for each round, the change in price and the new price |
| MonkeyMarket.ChangesAndPrices | aoc2024/src/problems/problem22.rs:86-97 | `changes_and_prices` returns, for each of the `steps` rounds, the change in price and the price after it |
| MonkeyMarket.ChangeRange | aoc2024/src/problems/problem22.rs:81-97 | every change lies in -9..9 and every price in 0..9 |
| MonkeyMarket.Moves | aoc2024/src/problems/problem22.rs:94-96 | one change per pair |
| MonkeyMarket.ChangesTelescope | aoc2024/src/problems/problem22.rs:94-96 | the changes add up to the last price minus the seed's price |
| MonkeyMarket.Windows | aoc2024/src/problems/problem22.rs:104-110 | zipping the four shifted iterators yields `n - 3` windows of `n` changes, none when fewer than four |
| MonkeyMarket.GotFirst | aoc2024/src/problems/problem22.rs:111-114 | a buyer pays for a window the price at its first occurrence, whatever follows |
| MonkeyMarket.GotAbsent | aoc2024/src/problems/problem22.rs:111-114 | a window a buyer never shows earns nothing from that buyer |
| MonkeyMarket.GotSnoc | aoc2024/src/problems/problem22.rs:108-115 | one more window is paid only if it was not seen before, and joins the windows seen |
| MonkeyMarket.GainNonNegative | aoc2024/src/problems/problem22.rs:113 | the bananas a window earns over all buyers are never negative |
| MonkeyMarket.GotNonNegative | aoc2024/src/problems/problem22.rs:110-113 | with non-negative prices a buyer pays a non-negative amount |
| MonkeyMarket.GainAbsent | aoc2024/src/problems/problem22.rs:101-116 | a window no buyer shows earns nothing |
| MonkeyMarket.OfferedEmpty | aoc2024/src/problems/problem22.rs:101-117 | no window at all occurs exactly when there are no buyers or fewer than four steps |
| MonkeyMarket.Visit | aoc2024/src/problems/problem22.rs:102-115 | one buyer's pass adds exactly its windows to the keys of `total` and, to each, the price at the window's first occurrence |
| MonkeyMarket.VisitStep | aoc2024/src/problems/problem22.rs:109-114 | visiting one more window keeps `seen` equal to the windows visited and `total` equal to their first prices |
| MonkeyMarket.MaxValue | aoc2024/src/problems/problem22.rs:117 | the maximum is absent exactly for an empty map; otherwise it bounds every value and is one of them |
| MonkeyMarket.SolvePartTwo | aoc2024/src/problems/problem22.rs:99-118 | the answer is the largest total over every window any buyer shows, each buyer selling at the first occurrence; absent (the `unwrap` panic) exactly when there are no buyers or fewer than four steps |
| Text.BelowIrreflexive | aoc2024/src/problems/problem23.rs:42 | no name comes before itself, so `v2 <= v1` skips `v1` itself |
| Text.BelowTransitive | aoc2024/src/problems/problem23.rs:42-46 | the order on names used by both parts is transitive |
| Text.BelowTotal | aoc2024/src/problems/problem23.rs:42-46 | of two different names exactly one comes first |
| LanParty.ParseEdge | aoc2024/src/problems/problem23.rs:17-18 | a line parses exactly when it holds a dash, into the dash-free text before the first dash and the rest after it |
| LanParty.ParseEdgeFormat | aoc2024/src/problems/problem23.rs:17-18 | a dash-free name, a dash and a name read back as the two names |
| LanParty.Parse | aoc2024/src/problems/problem23.rs:14-20 | the map parses exactly when every non-empty line holds a dash, one connection per line |
| LanParty.LinkedVertices | aoc2024/src/problems/problem23.rs:33-38 | both ends of a connection are among `vertices` |
| LanParty.Lists | aoc2024/src/problems/problem23.rs:33-38 | the adjacency lists have an entry for exactly the computers named |
| LanParty.ListsLinked | aoc2024/src/problems/problem23.rs:33-38 | a computer's list holds exactly the computers connected to it, so adjacency is symmetric |
| LanParty.ListsDistinct | aoc2024/src/problems/problem23.rs:33-38 | without self-connections or repeated connections, no list repeats a computer |
| LanParty.BuildLists | aoc2024/src/problems/problem23.rs:31-38 | the loop builds exactly those adjacency lists and the set of computers |
| LanParty.CellSound | aoc2024/src/problems/problem23.rs:45-52 | a triple is appended only when its three computers are increasing and pairwise connected |
| LanParty.CellComplete | aoc2024/src/problems/problem23.rs:45-52 | every such triangle of `v1`, `v2` met so far has been appended |
| LanParty.CellDistinct | aoc2024/src/problems/problem23.rs:45-52 | with repetition-free lists, an appended triple was not recorded before |
| LanParty.CellStep | aoc2024/src/problems/problem23.rs:45-52 | one pass of the innermost loop keeps the recorded triples exactly the triangles met so far |
| LanParty.RowStep | aoc2024/src/problems/problem23.rs:41-44 | skipping a neighbour that does not come after `v1`, or finishing its inner loop, misses no triangle |
| LanParty.Extend | aoc2024/src/problems/problem23.rs:41-54 | the loops for one computer append exactly its triangles as first computer, each a triangle in increasing order, once each when lists do not repeat |
| LanParty.ExtendRow | aoc2024/src/problems/problem23.rs:45-53 | the innermost loop appends exactly the triangles through `v1` and `v2` |
| LanParty.Finish | aoc2024/src/problems/problem23.rs:41-54 | after the last neighbour, every triangle of `v1` is recorded |
| LanParty.FoundStep | aoc2024/src/problems/problem23.rs:40-55 | after each computer the triples recorded are exactly the triangles whose first computer is done |
| LanParty.Recorded | aoc2024/src/problems/problem23.rs:40-58 | once all computers are done, the `t` triples recorded are exactly the `t` triangles |
| LanParty.TeeCount | aoc2024/src/problems/problem23.rs:56-58 | the count is at most the number of triples |
| LanParty.TeeCountSet | aoc2024/src/problems/problem23.rs:56-58 | the count is at least the number of different `t` triples, exactly that without repetition, and 0 only when there is none |
| LanParty.SolvePartOne | aoc2024/src/problems/problem23.rs:30-59 | part one counts every triangle with a `t` name at least once, is 0 exactly when there is none, and counts each exactly once when no connection is repeated or joins a computer to itself |
| LanParty.LinkedSymmetric | aoc2024/src/problems/problem23.rs:80-81 | connections go both ways |
| LanParty.BuildSets | aoc2024/src/problems/problem23.rs:77-84 | the neighbour sets hold exactly the connected computers, with an entry for each computer |
| LanParty.IncreasingDistinct | aoc2024/src/problems/problem23.rs:91 | a set extended only by later names never repeats a computer |
| LanParty.ChainLength | aoc2024/src/problems/problem23.rs:85-98 | no queued set is longer than the number of computers |
| LanParty.ExtendChain | aoc2024/src/problems/problem23.rs:91 | the test passes exactly when appending `v` gives an increasing, pairwise connected list |
| LanParty.SortClique | aoc2024/src/problems/problem23.rs:85-98 | every set of pairwise connected computers can be listed increasingly, as the search builds it |
| Text.Greatest | aoc2024/src/problems/problem23.rs:91 | every non-empty set of names has a last one |
| LanParty.WorthStep | aoc2024/src/problems/problem23.rs:88-98 | a queued set outweighs all the longer sets it can yield, so the search ends |
| LanParty.WeightSnoc | aoc2024/src/problems/problem23.rs:95 | `push_back` adds the weight of the new set |
| LanParty.PopQueued | aoc2024/src/problems/problem23.rs:88 | after `pop_front` every queued set was popped or is still queued |
| LanParty.PopOrdered | aoc2024/src/problems/problem23.rs:88 | the rest of the queue is ordered by length and no shorter than the popped set |
| LanParty.PopStep | aoc2024/src/problems/problem23.rs:88-89 | popping starts trying every computer against the front set |
| LanParty.PushQueued | aoc2024/src/problems/problem23.rs:92-95 | a pushed set is queued |
| LanParty.PushOrdered | aoc2024/src/problems/problem23.rs:92-95 | pushing a set one longer than the front keeps the queue ordered by length |
| LanParty.TryExtended | aoc2024/src/problems/problem23.rs:89-97 | after trying `v`, the extension by `v` is queued whenever it is a clique |
| LanParty.TryWeight | aoc2024/src/problems/problem23.rs:89-97 | each computer tried adds at most one longer set to the queue |
| LanParty.TryStep | aoc2024/src/problems/problem23.rs:89-97 | one pass of the inner loop keeps the search invariant |
| LanParty.DoneStep | aoc2024/src/problems/problem23.rs:88-98 | after the inner loop the search invariant holds again and the queue weighs less |
| LanParty.AllQueued | aoc2024/src/problems/problem23.rs:85-98 | once the queue is empty, every increasing clique has been queued |
| LanParty.LongestChain | aoc2024/src/problems/problem23.rs:87-99 | a longest increasing clique has as many computers as any clique |
| LanParty.PairChain | aoc2024/src/problems/problem23.rs:89-95 | two different connected computers make a clique of two |
| LanParty.Searched | aoc2024/src/problems/problem23.rs:87-99 | at the end `last` is a longest increasing clique, absent exactly when no two different computers are connected |
| LanParty.Singletons | aoc2024/src/problems/problem23.rs:85-86 | the queue starts with every single computer |
| LanParty.Extensions | aoc2024/src/problems/problem23.rs:89-97 | the inner loop queues exactly the extensions of the front set that are cliques |
| LanParty.Search | aoc2024/src/problems/problem23.rs:85-98 | `last` ends as an increasing clique of maximum length, absent exactly when no two different computers are connected |
| LanParty.SolvePartTwo | aoc2024/src/problems/problem23.rs:76-103 | the answer joins with commas, in increasing order, the names of a largest set of pairwise connected computers; `None` (the `unwrap` panic) exactly when no two different computers are connected |
| CrossedWires.ApplyTable | aoc2024/src/problems/problem24.rs:17-23 | the truth table of the three gates: each is symmetric, all give 0 on two 0s, only XOR gives 0 on two 1s, only AND gives 0 on mixed inputs, and XOR is OR but not AND |
| CrossedWires.Name | aoc2024/src/problems/problem24.rs:57-69 | `alphanumeric1` succeeds exactly when the text starts with an ASCII letter or digit, and splits off the whole run of them |
| CrossedWires.NameOf | aoc2024/src/problems/problem24.rs:57-69 | a name followed by anything but a letter or digit is read whole |
| CrossedWires.StartOf | aoc2024/src/problems/problem24.rs:55-63 | a start line `name: token` is read back as the name with false exactly when the token is `0`, and true for any other token |
| CrossedWires.ParseOp | aoc2024/src/problems/problem24.rs:40-46 | `gate_op` consumes text whenever it succeeds |
| CrossedWires.ParseOpOf | aoc2024/src/problems/problem24.rs:40-46 | each operator's spelling reads back as that operator, `OR` included although `XOR` is tried first |
| CrossedWires.GateOf | aoc2024/src/problems/problem24.rs:64-72 | a gate line `lhs OP rhs -> target` is read back as that gate |
| CrossedWires.StartsOf | aoc2024/src/problems/problem24.rs:73-74 | `many1(start)` reads every start line and stops at the blank line |
| CrossedWires.GatesOf | aoc2024/src/problems/problem24.rs:75 | `many1(gate)` reads every gate line and stops at the final blank line |
| CrossedWires.ParseOf | aoc2024/src/problems/problem24.rs:73-80 | start lines, a blank line, gate lines and a newline parse into the gates and the start map, whatever follows |
| CrossedWires.ParseSteps | aoc2024/src/problems/problem24.rs:73-80 | once both `many1` parsers have read their lines and a newline follows each, the input is accepted |
| CrossedWires.FromIter | aoc2024/src/problems/problem24.rs:79-99 | `HashMap::from_iter` holds every key of the pairs, and each value is one given with its key |
| CrossedWires.FromIterLast | aoc2024/src/problems/problem24.rs:79-99 | of several pairs with the same key, the last one's value is kept |
| CrossedWires.Targets | aoc2024/src/problems/problem24.rs:97-99 | every gate's output wire is a key, and each key maps to a gate of the input driving that wire |
| CrossedWires.ValueRankFree | aoc2024/src/problems/problem24.rs:103-114 | a wire's value does not depend on which ranking shows that the evaluation ends |
| CrossedWires.SatisfiesValue | aoc2024/src/problems/problem24.rs:103-114 | any assignment that keeps the start values and obeys the gates it covers agrees with the wire values |
| CrossedWires.SatisfiesExtend | aoc2024/src/problems/problem24.rs:108-111 | caching a wire whose inputs are cached, with its gate applied to them, keeps the cache obeying the circuit |
| CrossedWires.ObeysExtend | aoc2024/src/problems/problem24.rs:108-111 | the same step keeps every cached gate output equal to its gate applied to its cached inputs |
| CrossedWires.Circuit.constructor | aoc2024/src/problems/problem24.rs:94-101 | the cache starts as the start values and the gates are looked up by output wire; this cache obeys the circuit |
| CrossedWires.Circuit.Calc | aoc2024/src/problems/problem24.rs:103-114 | returns the wire's value (None for the `unwrap` panic on a wire with no value and no gate); a cached value is returned with the cache unchanged; a computed value is cached; earlier entries, the start values among them, are never overwritten |
| CrossedWires.Outputs | aoc2024/src/problems/problem24.rs:117-118 | the wires filtered in are exactly the gate outputs whose names start with `z` |
| CrossedWires.Circuit.Collect | aoc2024/src/problems/problem24.rs:117-123 | yields each `z` wire once with its value, or fails only when some `z` wire has no value |
| CrossedWires.GatherStep | aoc2024/src/problems/problem24.rs:117-123 | adding a visited `z` wire with its value keeps the readings distinct, correct, and covering every `z` wire not still to visit |
| CrossedWires.Descending | aoc2024/src/problems/problem24.rs:124 | lists the names of a set, each once, highest first |
| CrossedWires.DecreasingUnique | aoc2024/src/problems/problem24.rs:124 | two highest-first lists of the same names are equal, so the sorted order is unique |
| CrossedWires.Insert | aoc2024/src/problems/problem24.rs:124 | one insertion step of the sort adds exactly the new reading |
| CrossedWires.InsertFrom | aoc2024/src/problems/problem24.rs:124 | every reading after an insertion is the new one or an old one |
| CrossedWires.InsertSorted | aoc2024/src/problems/problem24.rs:124 | an insertion keeps the readings highest name first |
| CrossedWires.InsertStrictlySorted | aoc2024/src/problems/problem24.rs:124 | with a new name, an insertion keeps the names strictly decreasing |
| CrossedWires.SortByName | aoc2024/src/problems/problem24.rs:124 | `sort_by(b.0.cmp(&a.0))` returns a permutation of the readings sorted highest name first, strictly so when the names are distinct |
| CrossedWires.NewName | aoc2024/src/problems/problem24.rs:124 | with distinct names, the readings already sorted never share the next one's name |
| CrossedWires.Binary | aoc2024/src/problems/problem24.rs:131-135 | n bits read most significant first give a number below 2^n |
| CrossedWires.BinaryFront | aoc2024/src/problems/problem24.rs:131-135 | the first bit counts 2^(number of later bits), so the first reading is the most significant |
| CrossedWires.ToBits | aoc2024/src/problems/problem24.rs:131-135 | the bits of a number to a given width have that width |
| CrossedWires.BinaryToBits | aoc2024/src/problems/problem24.rs:131-135 | reading the bits of a number that fits the width gives the number back |
| CrossedWires.FromStrRadix2 | aoc2024/src/problems/problem24.rs:131-135 | `u64::from_str_radix(_, 2)` only succeeds with a value below 2^64 |
| CrossedWires.BitStringRadix2 | aoc2024/src/problems/problem24.rs:126-134 | the joined `1`/`0` string spells the bits and has their binary value |
| CrossedWires.FromBitString | aoc2024/src/problems/problem24.rs:126-135 | parsing the joined bits gives their binary value, and panics (None) when there are no bits or the value needs more than 64 bits |
| CrossedWires.Bits | aoc2024/src/problems/problem24.rs:117-123 | the bits of a list of wires exist exactly when every wire has a value, and are those values in order |
| CrossedWires.EvaluableBits | aoc2024/src/problems/problem24.rs:117-123 | the bits of the sorted `z` wires exist exactly when every `z` wire has a value |
| CrossedWires.ReadoutValue | aoc2024/src/problems/problem24.rs:116-136 | part one succeeds exactly when there is a `z` wire, every `z` wire has a value and the number fits in a `u64`; it is then the binary number of the `z` bits, highest name first |
| CrossedWires.Names | aoc2024/src/problems/problem24.rs:124 | the names of a list of readings, in order |
| CrossedWires.ReadingBits | aoc2024/src/problems/problem24.rs:126-134 | the bits of a list of readings, in order |
| CrossedWires.SortedNames | aoc2024/src/problems/problem24.rs:117-124 | after the sort, the readings' names are the `z` wires highest first |
| CrossedWires.SortedValues | aoc2024/src/problems/problem24.rs:117-124 | the sort keeps each wire's value with its name |
| CrossedWires.SortedReadout | aoc2024/src/problems/problem24.rs:117-135 | parsing the bits of the sorted readings gives part one's answer |
| CrossedWires.Circuit.Solve | aoc2024/src/problems/problem24.rs:116-136 | returns part one's answer (None for a panic), keeps the cache obeying the circuit and never overwrites an entry |
| CrossedWires.PartOne | aoc2024/src/problems/problem24.rs:139-144 | building the circuit from the input and solving it gives part one's answer |
| LocksKeys.ParseSchemes | aoc2024/src/problems/problem25.rs:14-22 | the schemes are the pieces between blank lines, at most one per piece, each holding only non-empty lines and none left empty |
| LocksKeys.Blocks | aoc2024/src/problems/problem25.rs:16-20 | blocks come from the pieces between blank lines, keep only non-empty lines, and blocks left empty are dropped |
| LocksKeys.MaxLen | aoc2024/src/problems/problem25.rs:31 | the longest line length: no line is longer, and some line has it when the block is not empty |
| LocksKeys.Heights | aoc2024/src/problems/problem25.rs:30-38 | one height per column up to the longest line, each between -1 and the number of lines minus one |
| LocksKeys.Tumblers | aoc2024/src/problems/problem25.rs:30-38 | the nested loops produce, per column, the number of `#` in that column minus one |
| LocksKeys.FitsFor | aoc2024/src/problems/problem25.rs:51-57 | the number of keys fitting one lock is at most the number of keys |
| LocksKeys.CountFitsBound | aoc2024/src/problems/problem25.rs:50-58 | there are at most locks × keys fitting pairs |
| LocksKeys.HeightsOfSplits | aoc2024/src/problems/problem25.rs:42-48 | every block goes to exactly one of the lock and key lists |
| LocksKeys.Solve | aoc2024/src/problems/problem25.rs:39-59 | the answer counts the (lock, key) pairs whose column sums are all below 6, a block being a lock iff its first line starts with `#` |
| Dial.ParseRotation | aoc2025/src/problems/problem01.rs:38-48 | a line parses exactly when it is `L` or `R` followed by a count, giving that direction and count; an empty line fails |
| Dial.ParseRotations | aoc2025/src/problems/problem01.rs:36-51 | the input parses exactly when every line does, one rotation per line in order |
| Dial.Turn | aoc2025/src/problems/problem01.rs:58-65 | part one's turn moves the dial by the whole click count, right or left, modulo 100 |
| Dial.Click | aoc2025/src/problems/problem01.rs:71-78 | one click of part two moves the dial one position right or left, modulo 100 |
| Dial.SpinOffset | aoc2025/src/problems/problem01.rs:70-78 | `n` single clicks move the dial `n` positions right or left, modulo 100 |
| Dial.SpinIsTurn | aoc2025/src/problems/problem01.rs:58-65 | part one's one-step turn ends where part two's click-by-click turn ends |
| Dial.LandsOnZero | aoc2025/src/problems/problem01.rs:70-81 | click `n` lands on 0 exactly when the start's distance from 0 plus `n` is a multiple of 100 |
| Dial.ZeroHitsClosed | aoc2025/src/problems/problem01.rs:70-81 | the clicks of one rotation land on 0 as many times as whole hundreds are covered from 0 |
| Dial.Run | aoc2025/src/problems/problem01.rs:53-86 | from position 50 the dial stays within 0 to 99, and part one counts at most one zero per rotation |
| Dial.SamePosition | aoc2025/src/problems/problem01.rs:53-86 | both parts leave the dial in the same position after any rotations |
| Dial.Solve | aoc2025/src/problems/problem01.rs:53-86 | the loops count, from position 50, the rotations ending on 0 (part one) or the clicks landing on 0 (part two) |
| InvalidIds.ParseRange | aoc2025/src/problems/problem02.rs:36-40 | a piece parses exactly when it splits at its first `-` into two decimal numbers, which become the range's ends |
| InvalidIds.ParsePieces | aoc2025/src/problems/problem02.rs:35-41 | the pieces of a line parse exactly when each does, one range per piece in order |
| InvalidIds.ParseLines | aoc2025/src/problems/problem02.rs:32-44 | the input parses exactly when every comma-separated piece of every line is a range |
| InvalidIds.MissingDashFails | aoc2025/src/problems/problem02.rs:36 | a piece without `-` makes parsing fail |
| InvalidIds.InvalidIsDouble | aoc2025/src/problems/problem02.rs:47-51 | an id is invalid in part one exactly when its decimal digits are some block written twice |
| InvalidIds.OddLengthValid | aoc2025/src/problems/problem02.rs:47-51 | an id with an odd number of digits is never invalid in part one |
| InvalidIds.IsInvalid2 | aoc2025/src/problems/problem02.rs:52-66 | the loop over block lengths, with its early return, answers whether some proper block length divides the digits into equal blocks |
| InvalidIds.AllBlocksEqual | aoc2025/src/problems/problem02.rs:58-60 | the comparison of each block with the first is true exactly when all blocks of that length are equal |
| InvalidIds.Invalid2IsRepetition | aoc2025/src/problems/problem02.rs:52-66 | an id is invalid in part two exactly when its digits are one block written at least twice |
| InvalidIds.InvalidImpliesInvalid2 | aoc2025/src/problems/problem02.rs:47-62 | every id invalid in part one is invalid in part two, since the half length is among the lengths tried |
| InvalidIds.Solve | aoc2025/src/problems/problem02.rs:67-78 | the loops add up every id of every inclusive range that the selected rule flags |
| InvalidIds.PartOneAtMostPartTwo | aoc2025/src/problems/problem02.rs:67-78 | on any ranges, part one's sum is at most part two's |
| InvalidIds.TotalAppend | aoc2025/src/problems/problem02.rs:68-77 | the sum over two lists of ranges is the sum of their sums |
| Batteries.ParseBank | aoc2025/src/problems/problem03.rs:26 | a line of decimal digits gives their values in order; any other character fails |
| Batteries.ParseBanks | aoc2025/src/problems/problem03.rs:23-30 | the input parses exactly when every line is digits, one bank per line |
| Batteries.ConcatSpelling | aoc2025/src/problems/problem03.rs:45-48 | `concat(a, b)` is the value of `a`'s digits followed by `b`'s, and 0 when that exceeds 64 bits |
| Text.WidthOf | aoc2025/src/problems/problem03.rs:46 | a number printed by `to_string` has `w` digits exactly when it lies in `[10^(w-1), 10^w)` |
| Batteries.SolveOne | aoc2025/src/problems/problem03.rs:33-44 | the loops find the largest `10 * d[i] + d[j]` over `i < j`, and 0 for fewer than two digits; it equals the best two-digit choice |
| Batteries.PickMaximal | aoc2025/src/problems/problem03.rs:49-61 | no choice of `k` digits kept in order spells a larger number than `Pick` |
| Batteries.PickAttained | aoc2025/src/problems/problem03.rs:49-61 | some choice of `k` digits kept in order spells exactly `Pick` |
| Batteries.SolveTwo | aoc2025/src/problems/problem03.rs:49-61 | the twelve rounds of backward sweeps compute the table `Rounds`, and with digits 1 to 9 the result is the best twelve-digit choice |
| Batteries.RoundsArePick | aoc2025/src/problems/problem03.rs:51-59 | with digits 1 to 9, entry `i` after `t` rounds is ten times the best `t`-digit choice from position `i` on |
| Batteries.PickStep | aoc2025/src/problems/problem03.rs:55-56 | one cell of a sweep, `max(dp2[i+1], concat(d[i], dp[i+1]))`, matches one step of the best-choice recursion |
| Batteries.JoltageAsWritten | aoc2025/src/problems/problem03.rs:49-61 | `solve1_2` as written, twelve rounds then the first entry divided by 10, gives the best twelve-digit choice when every digit is 1 to 9 |
| Batteries.JoltageIsPick | aoc2025/src/problems/problem03.rs:51-60 | with digits 1 to 9 the final entry ends in the 0 that the initial table put there, and dividing by 10 leaves the best twelve-digit choice |
| Batteries.ZeroDigitBreaks | aoc2025/src/problems/problem03.rs:45-60 | for the bank `100000000000` the code as written gives 1, while the best choice is `10^11` |
| Batteries.Solve | aoc2025/src/problems/problem03.rs:62-66 | the answer is the sum over the banks of the selected part's value |
| Batteries.TotalIsBest | aoc2025/src/problems/problem03.rs:62-66 | with digits 1 to 9 in every bank, part two's sum is the sum of the best twelve-digit choices |
| PaperRolls.ParseField | aoc2025/src/problems/problem04.rs:24-36 | one row per line, each cell a roll exactly when its character is `@` |
| PaperRolls.RowSpan | aoc2025/src/problems/problem04.rs:45-55 | a run of cells in one row holds at most as many rolls as it has cells |
| PaperRolls.BoxSpan | aoc2025/src/problems/problem04.rs:45-55 | a band of rows, three columns wide, holds at most three rolls per row |
| PaperRolls.WindowBounds | aoc2025/src/problems/problem04.rs:44-55 | the window count includes the centre roll itself and is at most 9 |
| PaperRolls.RowAccessible | aoc2025/src/problems/problem04.rs:43-59 | the accessible rolls of a row are no more than its rolls |
| PaperRolls.AccessibleBefore | aoc2025/src/problems/problem04.rs:42-60 | the accessible rolls of the first rows are no more than their rolls |
| PaperRolls.Count | aoc2025/src/problems/problem04.rs:44-55 | the two inner loops count the rolls in the in-grid 3×3 window around the cell |
| PaperRolls.Solve | aoc2025/src/problems/problem04.rs:38-62 | on a field with a first row and no row narrower than it, the answer counts the cells within the first row's width that are rolls with at most four rolls in their window, and is at most the number of those rolls |
| FreshIds.ParseRange | aoc2025/src/problems/problem05.rs:36-37 | a range line parses exactly when it splits at its first `-` into two numbers, which become the ends |
| FreshIds.ParseRanges | aoc2025/src/problems/problem05.rs:35-38 | the range lines parse exactly when each does, in order |
| FreshIds.ParseIds | aoc2025/src/problems/problem05.rs:40-42 | the id lines parse exactly when each is a number, in order |
| FreshIds.ParseInput | aoc2025/src/problems/problem05.rs:29-45 | without a blank line parsing fails; otherwise the ranges come from the lines before it and the ids from the lines after it |
| FreshIds.CountFresh | aoc2025/src/problems/problem05.rs:48-53 | part one counts each id at most once, so the count is at most the number of ids |
| FreshIds.CountFreshPositions | aoc2025/src/problems/problem05.rs:48-53 | part one's count is the number of positions whose id lies in some inclusive range |
| FreshIds.CountFreshSameCover | aoc2025/src/problems/problem05.rs:48-53 | ranges covering the same ids give the same part-one count |
| FreshIds.Merge | aoc2025/src/problems/problem05.rs:56-65 | `merge` fails exactly when one range ends before the other begins, and otherwise gives the hull from the smaller start to the larger end |
| FreshIds.MergeCovers | aoc2025/src/problems/problem05.rs:56-65 | the hull of two overlapping ranges holds exactly the ids of the two |
| FreshIds.FindMergeable | aoc2025/src/problems/problem05.rs:67-76 | the nested loops find a pair `i < j` that merges, or establish that no pair merges |
| FreshIds.ReplaceCovers | aoc2025/src/problems/problem05.rs:69-73 | removing the two ranges and pushing their hull keeps every range well formed and the covered ids the same |
| FreshIds.MergeAll | aoc2025/src/problems/problem05.rs:66-78 | when the loop stops no two ranges merge, and the ranges cover the same ids as the input |
| FreshIds.LengthCountsIds | aoc2025/src/problems/problem05.rs:79-81 | for ranges no two of which merge, the sum of `to - from + 1` is the number of covered ids |
| FreshIds.SolvePartTwo | aoc2025/src/problems/problem05.rs:55-81 | part two's answer is the number of ids that some input range holds |
| FreshIds.Solve | aoc2025/src/problems/problem05.rs:47-83 | part one counts the ids in some range; part two counts the ids the ranges cover |
| ColumnMath.ParseOperation | aoc2025/src/problems/problem06.rs:42-48 | `+` is addition, `*` multiplication, and any other token fails parsing |
| ColumnMath.ParseAll | aoc2025/src/problems/problem06.rs:37-48 | a list of tokens parses exactly when every token does, keeping their order |
| ColumnMath.ScanLines | aoc2025/src/problems/problem06.rs:34-51 | the loop gives `Scan`: number lines become rows until the first other line, whose tokens are the operators and which ends the scan |
| ColumnMath.Transpose | aoc2025/src/problems/problem06.rs:52-57 | equation i has operator i and operand j equal to `rows[j][i]`, and it exists exactly when every row is long enough |
| ColumnMath.SumAtLeast | aoc2025/src/problems/problem06.rs:64 | a `+` problem's result is at least each of its operands |
| ColumnMath.ProductZero | aoc2025/src/problems/problem06.rs:65 | a `*` problem with a zero operand gives 0, and with positive operands is at least each operand |
| ColumnMath.ProductPositive | aoc2025/src/problems/problem06.rs:65 | a product of positive operands is positive |
| ColumnMath.SolveAppend | aoc2025/src/problems/problem06.rs:61-68 | the grand total of two worksheets side by side is the sum of their totals |
| ColumnMath.ParseWorksheet | aoc2025/src/problems/problem06.rs:30-59 | the worksheet parses exactly when every line up to the operator line parses and every row has a column for every operator; it then gives one problem per operator, each with one operand per number row |
| ColumnMath.Evaluate | aoc2025/src/problems/problem06.rs:63-66 | a `+` problem's result is at least each operand; a `*` problem's is 0 when an operand is 0 and otherwise at least each operand |
| ColumnMath.Solve | aoc2025/src/problems/problem06.rs:61-68 | the grand total is at least the result of every problem on the worksheet |
| Tachyon.ParseRow | aoc2025/src/problems/problem07.rs:73-80 | a line becomes one cell per character, a splitter exactly at `^` |
| Tachyon.LastStart | aoc2025/src/problems/problem07.rs:81-85 | the start is the last `S` of the first line, and there is none exactly when the line holds no `S` |
| Tachyon.ParseInput | aoc2025/src/problems/problem07.rs:70-91 | parsing succeeds exactly when there is a first line holding an `S`; the start then lies inside the first row |
| Tachyon.SplitOutcome | aoc2025/src/problems/problem07.rs:27-40 | a row fails exactly when some beam lies past its end or on a splitter in column 0, where the source indexes out of bounds; otherwise it counts at most one split per beam and every new beam lies at most one column past the row |
| Tachyon.SplitRow | aoc2025/src/problems/problem07.rs:27-40 | one row moves each beam on through an empty cell and to both neighbours of a splitter, counting one split per beam on a splitter, and fails where a beam leaves the row or a splitter sits in column 0 |
| Tachyon.RunOneLast | aoc2025/src/problems/problem07.rs:26-41 | each further row either ends the whole run with a failure or adds its new beams and its splits to the run so far |
| Tachyon.RunOneStaysNone | aoc2025/src/problems/problem07.rs:26-41 | once a row fails, the whole run fails |
| Tachyon.SolvePartOne | aoc2025/src/problems/problem07.rs:23-43 | the loop over the rows returns the split count of the row-by-row run from the start column, and fails exactly when that run fails |
| Tachyon.Ways | aoc2025/src/problems/problem07.rs:48-61 | every cell is left by at least one timeline |
| Tachyon.FillRow | aoc2025/src/problems/problem07.rs:51-60 | the inner loop fills a row of the table with the timeline counts of that row, from the row below |
| Tachyon.SolvePartTwo | aoc2025/src/problems/problem07.rs:45-63 | the table filled upwards from a row of ones gives, at the start column of the top row, the number of timelines from the start |
| Tachyon.WaysCountsTimelines | aoc2025/src/problems/problem07.rs:45-63 | part two's count equals the number of timelines (with repetition) that a forward walk through the rows produces, every split turning one timeline into two |
| Tachyon.SplitOfElems | aoc2025/src/problems/problem07.rs:27-40 | on the distinct positions of the timelines one row of part one yields the distinct positions after the row, and its splits are at most the timelines added |
| Tachyon.RunOneFollowsTimelines | aoc2025/src/problems/problem07.rs:24-41 | after every row part one's beam set is the set of distinct timeline positions, and its split count is below the number of timelines |
| Tachyon.PartOneBelowPartTwo | aoc2025/src/problems/problem07.rs:23-63 | on a grid that part two accepts part one never fails, and its split count plus one is at most part two's timeline count |
| Circuits.Dist2Metric | aoc2025/src/problems/problem08.rs:11-13 | the squared distance is never negative, is symmetric, and is zero exactly between equal points |
| Circuits.ParsePoint | aoc2025/src/problems/problem08.rs:116-121 | a line parses exactly when it splits at commas into three integers, which become the coordinates |
| Circuits.ParsePoints | aoc2025/src/problems/problem08.rs:112-124 | the input parses exactly when every line is a point, in order |
| Circuits.BuildPairs | aoc2025/src/problems/problem08.rs:32-37 | the nested loops push the list of all pairs `i < j` with their distances |
| Circuits.PairsBelowFacts | aoc2025/src/problems/problem08.rs:33-37 | the pushed list holds exactly the pairs `i < j` with their squared distance, in increasing order of `(i, j)` |
| Circuits.SortEdges | aoc2025/src/problems/problem08.rs:38 | the sort returns a permutation of the wires, ordered by distance |
| Circuits.SortKeepsPushOrder | aoc2025/src/problems/problem08.rs:32-38 | wires of equal length stay in the order they were pushed, as a stable sort leaves them |
| Circuits.SortedPairs | aoc2025/src/problems/problem08.rs:32-38 | the sorted list holds every pair of boxes once, with its distance, shortest first |
| Circuits.LinkJoins | aoc2025/src/problems/problem08.rs:98-105 | after a merge `x` and `y` share a class, and two boxes share one exactly when they did before or both were in the classes of `x` or `y` |
| Circuits.LinkLabels | aoc2025/src/problems/problem08.rs:101-103 | merging within one class changes nothing; merging two classes removes exactly one class |
| Circuits.OneLabel | aoc2025/src/problems/problem08.rs:63-70 | a single class label means every box is in the same circuit |
| Circuits.RootHigher | aoc2025/src/problems/problem08.rs:86-96 | following parents climbs strictly, so the recursion of `get_class` ends at a root |
| Circuits.CompressRoot | aoc2025/src/problems/problem08.rs:91-94 | pointing a box straight at its root changes the root of no box |
| Circuits.LinkRoot | aoc2025/src/problems/problem08.rs:101-103 | hanging one root under another moves exactly the boxes of the first root to the second |
| Circuits.Dsu.constructor | aoc2025/src/problems/problem08.rs:82-84 | every element starts in its own class |
| Circuits.Dsu.GetClass | aoc2025/src/problems/problem08.rs:86-96 | an index out of range is an error; otherwise the result is the root of the element's class, and no element changes class |
| Circuits.Dsu.Merge | aoc2025/src/problems/problem08.rs:98-105 | an index out of range is an error; otherwise the class labelling becomes `Link` of the old one, and the forest stays valid |
| Circuits.Counts | aoc2025/src/problems/problem08.rs:42-46 | the count map has exactly the classes as keys, and each maps to the number of boxes in it |
| Circuits.CountClasses | aoc2025/src/problems/problem08.rs:42-46 | the counting loop builds that map and leaves the classes alone |
| Circuits.Entries | aoc2025/src/problems/problem08.rs:47 | the entries of the map are its values with repetitions, in any order |
| Circuits.SizesPerCircuit | aoc2025/src/problems/problem08.rs:42-47 | there is one size per circuit, and every size is at least one |
| Circuits.LinkFirst | aoc2025/src/problems/problem08.rs:39-41 | merging the first `k` wires leaves the classes of `LinkAll` over them |
| Circuits.SolvePartOne | aoc2025/src/problems/problem08.rs:30-52 | part one links the first `steps` wires (or all, if fewer) and returns the product of the three largest circuit sizes, whatever order the map yields them in |
| Circuits.SolvePartTwo | aoc2025/src/problems/problem08.rs:54-74 | part two walks the sorted wires, merging and counting only wires between different circuits, and answers at the `n - 1`-th such merge with the product of the two x coordinates; running out of wires fails |
| Circuits.KruskalCloses | aoc2025/src/problems/problem08.rs:63-71 | the wire part two answers with is one before which there are exactly two circuits and after which there is one |
| Circuits.KruskalRunsOut | aoc2025/src/problems/problem08.rs:63-73 | if part two runs out of wires, at least two circuits remain |
| Circuits.AllPairsJoin | aoc2025/src/problems/problem08.rs:57-62 | once every pair has been wired, all boxes share one circuit |
| Circuits.PartTwoAnswers | aoc2025/src/problems/problem08.rs:54-74 | with at least two boxes part two never reaches `unreachable!()`: it answers with the wire that joins the last two circuits into one |
| Tiles.ParsePoints | aoc2025/src/problems/problem09.rs:94-105 | the input parses exactly when every line is `x,y` with two integers, in order |
| Tiles.AreaPositive | aoc2025/src/problems/problem09.rs:111-113 | a rectangle between two corners covers at least one tile |
| Tiles.RowArg | aoc2025/src/problems/problem09.rs:110-114 | the inner maximum is reached at a corner whose area with `p1` bounds every other |
| Tiles.RowsArg | aoc2025/src/problems/problem09.rs:109-115 | the maximum of the row maxima is reached at a pair whose area bounds every pair's |
| Tiles.PartOne | aoc2025/src/problems/problem09.rs:107-115 | part one is the largest rectangle between two red tiles: at least 1, no pair's rectangle is larger, and some pair attains it; no answer without tiles |
| Tiles.Insert | aoc2025/src/problems/problem09.rs:39-46 | inserting into an ordered set keeps it increasing and adds exactly the new value |
| Tiles.FromIter | aoc2025/src/problems/problem09.rs:39-40 | collecting into a `BTreeSet` gives the distinct values, increasing |
| Tiles.AxisFacts | aoc2025/src/problems/problem09.rs:41-46 | the compressed axis is increasing and holds exactly the coordinates, their successors, -1 and the largest coordinate plus one |
| Tiles.AxesOfPoints | aoc2025/src/problems/problem09.rs:39-46 | every corner's coordinates are on the axes, and each axis has at least two values |
| Tiles.IndexMap | aoc2025/src/problems/problem09.rs:47-48 | the index map has exactly the axis values as keys and maps each to its position |
| Tiles.AxesMin | aoc2025/src/problems/problem09.rs:54-57 | looking up the smaller (larger) of two values gives the smaller (larger) of their indices |
| Tiles.BoxOf | aoc2025/src/problems/problem09.rs:53-57 | a segment's compressed box is a non-empty range of indices inside the field |
| Tiles.SegmentIndices | aoc2025/src/problems/problem09.rs:53-62 | a field cell is in a segment's compressed box exactly when its axis values lie between the segment's ends |
| Tiles.SegmentCellsStep | aoc2025/src/problems/problem09.rs:52-63 | marking one more segment adds exactly its box to the boundary cells |
| Tiles.MarkBox | aoc2025/src/problems/problem09.rs:58-62 | the two inner loops make every cell of the box Boundary and change no other cell |
| Tiles.MarkBoundary | aoc2025/src/problems/problem09.rs:52-63 | after the loop over the cyclic segments the Boundary cells are exactly those on some segment, the rest Unknown |
| Tiles.FloodFill | aoc2025/src/problems/problem09.rs:64-78 | the fill from `(0, 0)` leaves the walls as they were, leaves no Unknown neighbour next to the start or an Outside cell, and reaches no cell outside a region closed around the start |
| Tiles.Visit | aoc2025/src/problems/problem09.rs:67-77 | one popped cell gets all four neighbours settled, and each cell newly marked Outside is queued once |
| Tiles.Settle | aoc2025/src/problems/problem09.rs:68-76 | a neighbour off the field or already known is left alone; an Unknown one becomes Outside and is queued; no other cell changes |
| Tiles.BuildField | aoc2025/src/problems/problem09.rs:51-78 | the field is as wide and high as the axes, Boundary exactly on the segments, and closed around its Outside cells and the start |
| Tiles.Polygon.constructor | aoc2025/src/problems/problem09.rs:38-85 | the polygon holds the axes, their index maps and the filled field of the corners |
| Tiles.Polygon.CornersFit | aoc2025/src/problems/problem09.rs:120-122 | every corner's lookups in `x_map` and `y_map` succeed and index the field |
| Tiles.Polygon.AnyOutsideIff | aoc2025/src/problems/problem09.rs:124-128 | the two nested `any`s find an Outside cell exactly when the compressed rectangle holds one |
| Tiles.Polygon.RowBestIsMax | aoc2025/src/problems/problem09.rs:119-134 | the inner `max().unwrap_or(0)` bounds every accepted rectangle with corner `p1` and is one of them unless it is 0 |
| Tiles.MaxOrZero | aoc2025/src/problems/problem09.rs:134-135 | the maximum of the values, or 0: it bounds every value and is one of them unless it is 0 |
| Tiles.Polygon.Rows | aoc2025/src/problems/problem09.rs:118-134 | the row bests of the corners, one per corner in order |
| Tiles.Polygon.AnswerBounds | aoc2025/src/problems/problem09.rs:118-135 | part two's answer is at least the area of every accepted pair of corners |
| Tiles.Polygon.AnswerAttained | aoc2025/src/problems/problem09.rs:118-135 | part two's answer is the area of some accepted pair, unless it is 0 |
| Tiles.Polygon.SegmentAccepted | aoc2025/src/problems/problem09.rs:118-130 | the rectangle between two consecutive corners lies on the boundary, so no Outside cell rejects it |
| Tiles.Polygon.SegmentsBelowAnswer | aoc2025/src/problems/problem09.rs:118-135 | part two's answer is at least the rectangle of every segment |
| Tiles.Polygon.AnswerBelowPartOne | aoc2025/src/problems/problem09.rs:107-135 | part two's answer never exceeds part one's |
| Tiles.SolvePartTwo | aoc2025/src/problems/problem09.rs:116-135 | part two answers for any non-empty input with a value between the largest segment rectangle and part one's answer, attained by some pair of corners |
| Machines.Remove | aoc2025/src/problems/problem10.rs:137 | `replace(c, "")` leaves no `c` and only characters of the input |
| Machines.ParseLights | aoc2025/src/problems/problem10.rs:136-138 | after removing the brackets, a light must be on exactly where the token has `#` |
| Machines.StepFacts | aoc2025/src/problems/problem10.rs:134-154 | one token is rejected exactly when its first character is not `[`, `(` or `{`, or a number in it does not parse; only `[..]` sets the lights and only `{..}` the joltages |
| Machines.ParseTokensOk | aoc2025/src/problems/problem10.rs:133-155 | the token loop bails exactly when some token is rejected |
| Machines.ParseTokensLights | aoc2025/src/problems/problem10.rs:133-138 | after the loop the lights are set exactly when some token starts with `[` |
| Machines.ParseTokensJoltage | aoc2025/src/problems/problem10.rs:133-154 | after the loop the joltages are set exactly when some token starts with `{` |
| Machines.ParseMachineOk | aoc2025/src/problems/problem10.rs:128-159 | a line yields a machine exactly when every token is accepted and both a `[..]` and a `{..}` token occur ("no []", "no {}" otherwise) |
| Machines.Occurrences | aoc2025/src/problems/problem10.rs:35-37 | the count of a light in a button is positive exactly when the button lists it, and at most the button's length |
| Machines.FlipParity | aoc2025/src/problems/problem10.rs:87-89 | `enabled[*b] ^= true` for each listed light changes a light exactly when the button lists it an odd number of times |
| Machines.ToggledParity | aoc2025/src/problems/problem10.rs:84-91 | after the pressed buttons of a mask, a light is on exactly when it was toggled an odd number of times |
| Machines.Enable | aoc2025/src/problems/problem10.rs:83-92 | the in-place toggling loop computes the lights of `Toggled` for the mask |
| Machines.BestBelowIsMin | aoc2025/src/problems/problem10.rs:82-94 | the fold over masks below a limit yields the least popcount of a matching mask, attained by one, and nothing exactly when none matches |
| Machines.MinPressesIsMin | aoc2025/src/problems/problem10.rs:80-95 | `min_presses` is the least number of set bits among the masks below `2^buttons` whose toggles give exactly the wanted lights; it fails only on a light index out of range or when no mask matches |
| Machines.PartOne | aoc2025/src/problems/problem10.rs:166-175 | part one's sum exists exactly when every machine has a fewest-presses answer |
| Machines.Clicks | aoc2025/src/problems/problem10.rs:51-55 | every candidate press count lies in `0 ..= remaining` |
| Machines.Better | aoc2025/src/problems/problem10.rs:62-68 | folding a branch result keeps the smaller of the two present results, and nothing only when both are absent |
| Machines.ZeroOptimal | aoc2025/src/problems/problem10.rs:24-27 | with every counter at zero, `Some(0)` is the optimum |
| Machines.AllUsedNone | aoc2025/src/problems/problem10.rs:28-30 | with every button used and a counter not zero, no assignment of presses reaches the joltages |
| Machines.RarityOne | aoc2025/src/problems/problem10.rs:51-52 | when the light is counted once over the unused buttons, its counter is moved only by the chosen button, once per press |
| Machines.ClicksCover | aoc2025/src/problems/problem10.rs:51-55 | every feasible way to finish presses the chosen button a number of times that is among the candidates (exactly the remaining joltage when the light is counted once, else `0 ..= remaining`) |
| Machines.Branch | aoc2025/src/problems/problem10.rs:58-61 | the branch that presses the chosen button `k` times and marks it used, plus `k`, is optimal among the solutions pressing it `k` times |
| Machines.Combine | aoc2025/src/problems/problem10.rs:62-68 | folding the branches with `min` is optimal among all the candidates tried so far |
| Machines.Complete | aoc2025/src/problems/problem10.rs:58-75 | once every candidate has been tried the folded result is the optimum |
| Machines.OptimalUnique | aoc2025/src/problems/problem10.rs:40-42 | the optimum is unique, so the answer does not depend on the map's iteration order or on which of several rarest lights is picked |
| Machines.Rarest | aoc2025/src/problems/problem10.rs:40-42 | `min_by_key` picks a light of the map with the least count |
| Machines.ShortestWithIsFirstShortest | aoc2025/src/problems/problem10.rs:43-49 | the chosen button is unused, lists the light, is the shortest such, and the first among the shortest; it is found exactly when such a button exists |
| Machines.RarityWitness | aoc2025/src/problems/problem10.rs:31-49 | a light in the rarity map is listed by some unused button, so the `unwrap` of the button search cannot fail |
| Machines.MachineState.constructor | aoc2025/src/problems/problem10.rs:99-104 | the search starts from the full joltages with no button used |
| Machines.MachineState.Adjust | aoc2025/src/problems/problem10.rs:59-61 | subtracting (adding back) the clicks for each listed light moves every counter by the clicks times its occurrences in the button |
| Machines.MachineState.ComputeRarity | aoc2025/src/problems/problem10.rs:31-38 | the map holds exactly the lights listed by unused buttons, each with its number of occurrences over them |
| Machines.MachineState.Choose | aoc2025/src/problems/problem10.rs:31-49 | the branching light has the least positive count, and the button is the first shortest unused one listing it |
| Machines.MachineState.Go | aoc2025/src/problems/problem10.rs:21-76 | `go` returns the fewest total presses of the unused buttons that bring every counter exactly to zero, `None` when there is none, and leaves the counters and the used flags as it found them |
| Machines.MachineState.TryOne | aoc2025/src/problems/problem10.rs:59-72 | one iteration is optimal among the solutions with that press count and restores the counters |
| Machines.MachineState.TryClicks | aoc2025/src/problems/problem10.rs:58-73 | the loop is optimal among the solutions whose press count of the chosen button is a candidate, and restores the state |
| Machines.MinPressesTwo | aoc2025/src/problems/problem10.rs:98-107 | `min_presses_2` is the fewest presses from the full joltages with no button used; `None` (a panic in the source) when no assignment works or the machine is malformed |
| Machines.SolvePartTwo | aoc2025/src/problems/problem10.rs:166-175 | part two is the sum of every machine's optimum, and fails only when some machine has none |
| DevicePaths.ParseLineShape | aoc2025/src/problems/problem11.rs:56-58 | a line fails exactly when it has no `": "`; otherwise it is the device, `": "`, and its outputs separated by white space |
| Text.ParseEach | aoc2025/src/problems/problem11.rs:54-61 | the input parses exactly when every line does, one entry per line in order (shared with the other parsers) |
| DevicePaths.BuildListed | aoc2025/src/problems/problem11.rs:54-60 | a device has an entry exactly when some line starts with it, and its outputs are the concatenation of all its lines' outputs in order (a repeated device extends its list) |
| DevicePaths.AllPathsCounted | aoc2025/src/problems/problem11.rs:25-37 | the path count `Walks` equals the number of listed paths, each of which starts at the device, ends at the target and follows listed edges |
| DevicePaths.Search.constructor | aoc2025/src/problems/problem11.rs:26-27 | the search starts with no device used and an empty order |
| DevicePaths.Search.Dfs | aoc2025/src/problems/problem11.rs:13-23 | `dfs` only adds to `used` and `order`, pushes `v` exactly when it has an entry, after every output that has one, and keeps `order` a duplicate-free post-order of used devices (for an acyclic graph) |
| DevicePaths.Search.Visit | aoc2025/src/problems/problem11.rs:15-20 | an unused output is marked used before the descent, and every output ends up used and, if it has an entry, pushed |
| DevicePaths.Search.Push | aoc2025/src/problems/problem11.rs:21 | pushing `v` after its outputs keeps the post-order |
| DevicePaths.AddOutputs | aoc2025/src/problems/problem11.rs:31-35 | the inner loop adds each output's count, so the device's entry becomes its own start count plus the path counts through its outputs |
| DevicePaths.Paths | aoc2025/src/problems/problem11.rs:25-37 | `paths(from, to)` is the number of paths from `from` to `to` in an acyclic graph; with no entry for `from` it is 0 (1 when `from == to`) |
| DevicePaths.SolvePartOne | aoc2025/src/problems/problem11.rs:62-64 | part one counts the paths `you -> out` |
| DevicePaths.SolvePartTwo | aoc2025/src/problems/problem11.rs:65-72 | part two is `svr->fft * fft->dac * dac->out + svr->dac * dac->fft * fft->out` in path counts |
| Presents.FlipFlip | aoc2025/src/problems/problem12.rs:18-24 | mirroring a shape twice gives it back |
| Presents.FourTurns | aoc2025/src/problems/problem12.rs:26-32 | four quarter turns give the shape back |
| Presents.RotateFlip | aoc2025/src/problems/problem12.rs:18-32 | turning a mirror image equals mirroring the shape turned three times |
| Presents.WeightCells | aoc2025/src/problems/problem12.rs:46-50 | the weight is the number of filled cells among the nine, so at most 9 |
| Presents.WeightFlip | aoc2025/src/problems/problem12.rs:18-24 | mirroring keeps the weight |
| Presents.WeightRotate | aoc2025/src/problems/problem12.rs:26-32 | turning keeps the weight |
| Presents.Variants | aoc2025/src/problems/problem12.rs:34-44 | the four-round loop collects exactly the four turns of the shape and their mirror images |
| Presents.VariantsBounds | aoc2025/src/problems/problem12.rs:34-44 | the variants contain the shape itself and hold between one and eight distinct shapes |
| Presents.VariantsClosed | aoc2025/src/problems/problem12.rs:34-44 | turning or mirroring a variant gives a variant: every orientation is covered |
| Presents.VariantsWeight | aoc2025/src/problems/problem12.rs:34-50 | every variant weighs as much as the shape |
| Presents.NextPosRowMajor | aoc2025/src/problems/problem12.rs:85-91 | `next_pos` gives the next cell in row-major order and stays within the columns |
| Presents.CanFitIff | aoc2025/src/problems/problem12.rs:93-106 | a shape fits exactly when its 3×3 square lies inside the region and none of the cells it fills is taken |
| Presents.XorTwice | aoc2025/src/problems/problem12.rs:108-116 | toggling the same shape at the same place twice restores the field |
| Presents.XorFills | aoc2025/src/problems/problem12.rs:93-116 | after `can_fit`, toggling takes exactly the cells the shape covers and leaves every other cell alone |
| Presents.PlaceSound | aoc2025/src/problems/problem12.rs:135-143 | a fitting placement of a present still to place, followed by a packing of the rest on the toggled field, packs all of them |
| Presents.Bruteforcer.constructor | aoc2025/src/problems/problem12.rs:74-83 | the variants of every present, an empty field of the region's size, all counts still to place, no spare cells |
| Presents.Bruteforcer.Xor | aoc2025/src/problems/problem12.rs:108-116 | the field becomes the old field with the shape's cells toggled; nothing else changes |
| Presents.Bruteforcer.Scan | aoc2025/src/problems/problem12.rs:126-128 | (corrected) stops at the first free cell at or after the start in row-major order, every cell it skips being taken, or past the last row when every cell from the start on is taken |
| Presents.Bruteforcer.Go | aoc2025/src/problems/problem12.rs:118-156 | (corrected) restores the field, the counts and the spare cells; answers true when nothing is left; answers true only when the remaining presents can be packed into the free cells |
| Presents.Bruteforcer.TryKinds | aoc2025/src/problems/problem12.rs:130-145 | tries every kind still to place, in order, keeping the state; true only when packable |
| Presents.Bruteforcer.TryVariants | aoc2025/src/problems/problem12.rs:134-144 | tries the variants of one kind in some order, keeping the state; true only when packable |
| Presents.Bruteforcer.TryPlace | aoc2025/src/problems/problem12.rs:135-143 | places, searches on and removes the present again, restoring the state; true only when packable |
| Presents.Bruteforcer.Solve | aoc2025/src/problems/problem12.rs:158-169 | false without searching when the presents need more cells than the region has; true when they fit by area and none is asked for; true only when the presents can be packed |
| Presents.CountFitting | aoc2025/src/problems/problem12.rs:227-242 | the count is the number of regions whose search succeeds; each counted region can be packed and none needs more area than it has; every region that fits by area and asks for no present is counted |
| Presents.ScanAsWritten | aoc2025/src/problems/problem12.rs:126-128 | the cell the unbounded scan as written stops on is the first free cell at or after the start in row-major order: it lies inside the region and every cell it skips is taken |
| Presents.ScanAsWrittenPanics | aoc2025/src/problems/problem12.rs:126-128 | the unbounded scan as written runs past the last row exactly when every cell from its start on is taken |
| Presents.AsWrittenRunsOffTheEnd | aoc2025/src/problems/problem12.rs:118-128 | on region `3x3: 1 1` with the notched square and the single cell, the search does not give up, the notched square fits at the corner, the scan after it runs off the field, and yet the region can be packed |
| Presents.ParsePresentText | aoc2025/src/problems/problem12.rs:203-220 | a present block drawn as `id:` and three rows of `#` and `.` reads back as the shape |
| Presents.ParseRegionText | aoc2025/src/problems/problem12.rs:191-201 | a region line `RxC: n n ...` reads back as the region |
| Presents.ParseBlocksOk | aoc2025/src/problems/problem12.rs:189-222 | the input parses exactly when every blank-line-separated block does |
| Presents.ParseBlocksPresents | aoc2025/src/problems/problem12.rs:189-222 | every block without an `x` contributes one present, in order |

## Left out

- Tachyon.SolvePartTwo: requires every row as wide as the first and no splitter in the first or last column, where the source would index outside the table or underflow `j - 1`; rows longer than the first, which the source tolerates, are excluded too.
- Tachyon.SolvePartOne: a beam outside its row or a beam on a splitter in column 0 is a failure (`None`) where the source panics.
- Batteries.ParseBank: a non-digit character fails the parse, where the source subtracts `'0'` from any byte.
- FreshIds.SolvePartTwo: requires every input range to have `from <= to` (`WellFormed`). The source also accepts a reversed range that a later merge absorbs into another range; a reversed range that survives the merging makes its `to - from + 1` underflow `u64`.
- FreshIds: ids and range ends are `u64` in the source and unbounded here, so a number past `u64::MAX` parses here where the source fails, and the overflow of `to - from + 1` for the range 0 to `u64::MAX` is not modelled.
- Dial: the click count is a `u32` in the source and unbounded here. A count above 4294967295 therefore parses here where the source fails, and the overflow of `pos + count` for counts within 100 of that limit is not modelled; the `i32` answer is unbounded too.
- Circuits: coordinates and squared distances are unbounded integers, so the 64-bit overflow of `dist2` and of the final product is not modelled; `AsU64` models only the reinterpretation of a negative product.
- Circuits.SolvePartOne: the entries are ordered ascending and the last three multiplied, where the source sorts descending and takes the first three; the product is the same.
- Tiles: coordinates and areas are unbounded integers, so the 64-bit overflow of `dx * dy` is not modelled.
- Tiles.PartOne: an empty input has no answer (`None`) where the source panics on `max().unwrap()`.
- Tiles.SolvePartTwo: an empty input has no answer (`None`) where the source panics on the axis maximum in `Polygon::new`.
- Tiles.FloodFill: the cells it marks are characterised by closure (no Unknown cell next to an Outside one or the start) and by lying in every region closed around the start, not by an explicit path from `(0, 0)`.
- Machines: the debug `println!` lines of `go` and `solve` are not modelled.
- Machines.MinPressesIsMin: the masks are `u32` and `1 << buttons` overflows beyond 31 buttons; the model uses unbounded masks, because no machine has that many buttons.
- Machines.MachineState.Go: joltages are `i32` in the source and unbounded integers here, and the press totals `usize`.
- Machines.MinPresses: a light index out of range fails up front, where the source panics only when that button is pressed; a machine with no matching mask is `None` where `unwrap` panics.
- Machines.MinPressesTwo: a malformed machine (a light index out of range, or an empty button, which parsing cannot produce) is `None` up front, where the source panics only if the search reaches it; the search order of the `HashMap` is modelled as an arbitrary choice.
- DevicePaths.Paths: only acyclic graphs are modelled (acyclicity is given as a rank that decreases along every edge); on a cyclic input the source still terminates but its count is not a number of paths, and the start device can be pushed twice.
- DevicePaths: the `usize` products of part two are unbounded integers here.
- Presents: the debug `println!`s and the variant counts printed by `solve` are output only.
- Presents.Bruteforcer.TryVariants: the variants are a set and are tried in an arbitrary order, because `HashSet::into_iter` fixes no order; every contract holds for any order.
- Presents.Bruteforcer.Go: only soundness is stated (a `true` answer means a packing exists); the search is not complete, since it never returns to a free cell it has passed, so `false` does not mean the presents cannot be packed.
- Presents.Bruteforcer.Go: a region with zero columns is answered `false` instead of indexing an empty row.
- Presents: `usize` arithmetic (area products, counts) is unbounded; present ids are parsed but unused.
- Memory: operands and totals are `i32` in the source; operands are below 1000 so their products fit, but the running sums are unbounded integers here, so an overflow of a very long memory is not modelled.
- Memory: the `nom` combinators are replaced by the hand grammar `AtMul`/`AtDo`/`AtDont`/`Number`/`Char`; their error values are not modelled, only whether each alternative matches.
- Memory.Scan: the grammar is read as in `nom`'s complete mode, where the scan always succeeds. The source calls `Parser::parse`, which in `nom` 8 is streaming: `tag`, `char` and `take_while_m_n` report `Incomplete` at the end of the text, and `alt` and `many_till` pass that on. So memory that ends inside a `mul(a,b)` instruction (`m`, `mul(`, `mul(1,2`) is an error in the source, where the model reads the last characters as skipped ones.
- Memory.Scan2: the same complete-mode reading; memory that also ends inside `do()` or `don't()` (`d`, `do(`, `don't`) is an error in the source.
- WordSearch: the grid is required to be rectangular, at least 4×4 for part one and 3×3 for part two (`Side`); the source indexes every row with the first row's length, and on a smaller grid its `usize` ranges `rows - len + 1` and `cols - len + 1` underflow and panic.
- WordSearch.CountMatch: only a bound is stated (it counts no more windows than the pattern fits); the exact count as written is the number of fitting windows whose start column is below `cols - n + 1`, shown on an example by `TallPatternMissed`.
- WordSearch.CountMatch: a pattern wider than tall is excluded by its precondition, since the source would index past the row.
- WordSearch: the counts are `i32` in the source and unbounded here.
- PrintQueue.Sort: Rust's `sort_by`, a stable merge sort, is replaced by an insertion sort with the same comparator. When the rules order an update's pages totally, both give the same result (`SortedUnique`). For rules that do not, the order Rust produces is unspecified, and recent Rust versions may panic; neither is modelled.
- PrintQueue: the middle pages are summed as `i32` in the source and as unbounded integers here.
- PrintQueue.ParseInput: the grammar is read in `nom`'s complete mode. Under the streaming `Parser::parse` of `nom` 8, `take_while` reports `Incomplete` at the end of the text and `many1` passes it on. So the source fails on input that ends right after the last update's line ending (`many1(update)` tries once more on the empty rest) or inside its last number; it succeeds only when something that is not a digit, such as an empty line, follows.
- PrintQueue.ParseInputOf: the round trip is proved for the complete-mode grammar; the text it builds ends right after the last update's line ending, which the streaming source rejects.
- GuardPatrol.SolvePartOne: the loop is bounded by a `fuel` argument, since the source loops forever when the guard walks in a circle. `None` means the walk did not end within `fuel` rounds.
- GuardPatrol: the solver requires a rectangular map. The source measures columns by the first row and would panic on a shorter row. Positions are `i32` in the source and unbounded here.
- GuardPatrol.Parse: the `todo!()` panic on an unknown character is the `UnknownChar` outcome.
- Calibration, ClawMachines, Robots, CrossedWires: their `nom` grammars are also read in complete mode. Each line of these inputs ends with a required line ending, so a streaming `Incomplete` can only arise on text cut off inside a line, where the complete-mode grammar fails as well.
- Calibration: sums, products and concatenations are unbounded here. In the source they are `i64`, which overflows, and `concat`'s `parse().unwrap()` panics on a value past `i64::MAX`.
- Antennas.Gcd: modelled on non-negative arguments only. The `i32` version also accepts negative ones, but nothing calls it.
- Antennas.Solve: grid size, positions and the count are unbounded integers, not `i32`. An empty map makes the source panic at `field[0]`, so the solver requires at least one line.
- DiskCompaction.Solve: the disk map must be non-empty; the source panics at `compresed[0]` otherwise. Block ids (`i32`) and the `u64` checksum are unbounded here.
- Trailheads.Solve: the map must be rectangular and square. The source allocates `visited` as `m` rows of `n` and indexes it the other way round, so it panics on most maps that are not square. Heights, positions and the sum are unbounded here, not `i32`.
- Trailheads.Parse: a non-digit character makes `to_digit(10).unwrap()` panic; here that is the `None` outcome.
- Stones: stones and counts are unbounded integers. In the source they are `i64`, so `stone * 2024` overflows on large stones and a word past the `i64` range fails to parse; neither is modelled.
- Stones.StepCases: the split is characterised for non-negative stones only; for negative stones the model follows the spelling with its minus sign (NegativeDigit shows one consequence).
- GardenRegions: area, perimeter and total are unbounded integers; in the source they are `i32` and can overflow on a large map. A map with no rows, or with a row shorter than the first, makes the source panic; `Solve` requires neither to happen.
- ClawMachines: coordinates and prices are unbounded integers; in the source they are `i64`, and the products in `check2` can overflow for very large coordinates. A coordinate past `i64::MAX` fails to parse, as here.
- ClawMachines.SolvePartOne: the source calls `check2` on every machine before its `DEPENDENT` message, so a machine with parallel buttons panics in part one; `SolvePartOne` requires non-zero determinants, and the `DEPENDENT` and `BAD` messages (printing only) are left out. A zero component in a button also panics in `check`; `Positive` requires there is none.
- Robots: positions, velocities and counts are unbounded integers; in the source they are `i64` and `usize`, which large inputs could overflow. The room size is a parameter: the caller that picks it is not part of this model. The debug print of the parsed input is left out.
- ReindeerMaze: scores are unbounded integers; in the source they are `i32`. `SolvePartOne`, `SolvePartTwo` and `Dijkstra` require the maze to be walled in (`Enclosed`): a step off an empty cell past the map's edge indexes out of bounds in the source, which this model does not follow. The ordered queue and map are a `set` and a `map` with `pop_first` as the least entry under the derived order; iteration order of the `BTreeMap` does not matter for the results. Panics and the parse errors are both `None`.
- Computer: registers are unbounded integers (StepFits shows that no instruction makes one wider than `u64`); `>>` is repeated halving, so a shift by 64 or more gives 0, where the Rust `>>` panics in debug builds and masks the amount in release builds.
- Computer.Run: a run that never halts is cut off after a given number of rounds (`OutOfFuel`), since the program may loop forever; part two treats a cut-off test like a crash.
- Computer.PartTwoSound: the search is proved sound (its answer makes the program print itself and is the least one it found), not complete: the three-bits-per-round heuristic may miss smaller or all solutions.
- Computer.SolvePartTwo: `nd << shift` is unbounded here; for a program of more than 18 values the Rust shift loses bits or panics.
- Computer: the output's comma join in `impl Solvable` is I/O.
- Computer.Values: the program list is read in `nom`'s complete mode. Under the streaming `Parser::parse` of `nom` 8 the last number's `take_while` reports `Incomplete` when the text ends right after it, so a program line with no line ending after its last value is an error in the source.
- Computer.Parse: the same; `Computer.ParseRoundTrip` writes the program line with its line ending, where both modes agree.
- RamRun: the grid is square (`size` by `size`); the source allocates `field` as m rows of n cells but indexes it `[x][y]`, which only agrees with `dist` when n = m, and all uses of the solver pass n = m.
- RamRun: `size` must be positive (`n - 1` underflows otherwise); byte coordinates are unbounded naturals where the source parses `usize` and the `i32` casts of neighbour coordinates are taken as exact.
- RamRun.SolvePartTwo: `check(len)` is never evaluated, so the last byte is printed when no earlier prefix cuts the path, even if it does not cut it either; Threshold states what the scan finds rather than "the first byte that blocks the exit".
- RamRun: reading the input and printing the answers is I/O.
- Towels: trie nodes live in an arena of child maps indexed by node number rather than as nested owned `HashMap` nodes; the ghost path of each node stands for the position of the owned subtree. Characters are taken as single bytes, so `design[i..]` slices at character `i` (a non-ASCII design would make the Rust slice panic).
- Towels.CountWays: counts are unbounded; the `usize` sum in the source could overflow for designs with astronomically many layouts.
- Towels: an empty towel (two adjacent ", " separators) is inserted but never used, since `prefixes` reports lengths of at least one; the layouts counted are those with non-empty towels.
- RaceTrack.Solve: requires a rectangular map with the start and finish inside it. The source measures columns by the first row, so a shorter row would panic in `bfs`; a parsed map always has its `S` and `E` inside, but a ragged one is excluded here. Distances, savings and counts are unbounded rather than `usize`/`isize`, and the two debug `println!`s are left out.
- RaceTrack.Bfs: the queue is a sequence rather than a `VecDeque`; each search is proved against the shortest-walk distance, not against the exact visiting order.
- MonkeyMarket.Scramble: `x * 64` on a secret of 2^58 or more overflows `u64`, which panics in a debug build; the model wraps it at 2^64 as a release build does.
- MonkeyMarket.Total: the `u64` sum of part one is unbounded here; it stays below 2^24 per buyer, far from overflow for any input the parser can accept line by line.
- MonkeyMarket.MaxValue: `HashMap` iteration order is not modelled; the maximum does not depend on it.
- MonkeyMarket.SolvePartTwo: the per-window totals are `i32` in the source and unbounded here; the final `as u64` cast is exact because the totals are never negative.
- LanParty.SolvePartOne: the `HashSet` order of `vertices` is chosen freely in the model; the count does not depend on it.
- LanParty.SolvePartTwo: the `HashSet` order over which computers are tried is chosen freely, so which of several largest cliques is printed is left open; the `println!` of the answer is not modelled.
- CrossedWires.Circuit.Calc: requires a ranking under which every gate without a start value ranks above its inputs. On a circuit with a loop of gates, the source recurses until the stack overflows; that crash is not modelled, and neither is a loop among gates that no `z` wire depends on, which the source never visits.
- CrossedWires.Circuit.Solve: the two `println!` calls are not modelled, and `HashMap` iteration order is chosen freely (the answer does not depend on it).
- CrossedWires.SortByName: the standard library's stable merge sort is modelled by insertion into a sequence, which gives the same order.
- CrossedWires.PartOne: the `println!` of the whole input is not modelled. The repository has no part two for day 24.
- Warehouse: part one and part two require a rectangular map walled in on every side (`Bordered`, inside `Valid1` and `Valid2`). A push that reaches an unwalled edge indexes out of bounds in the source. A map without a wall all round, whose robot never reaches the edge, is handled by the source but excluded here. The `i32` GPS sum is unbounded here.
- Keypads.ShortestTypings: the breadth-first search takes a `fuel` bound on its rounds; `finished` says whether the queue ran empty within it, and only then is every typeable code answered.
- Keypads.SearchAgreesWithOracle: agreement between the breadth-first search and the cost oracle is proved with no robot in between only (`CodeCostIsShortestTyping`); for one or more robots it is not proved, and the worked total 126384 is not evaluated.
- Keypads: `click_at` and `to_paths` are never called by a solver and are not modelled; neither are the debug `println!`s, including the one of `move_and_click(3, …)` in `solve`.
- Keypads.Oracle.Solve: every code must have a numeric part, since `parse::<i64>().unwrap()` panics otherwise; the `i64`, `usize` and `isize` values are unbounded here. The `HashMap` of answers is modelled by `Distinct`, and `ComplexityPermutation` shows its order does not matter.
- Text.IsSpace: only ASCII space, tab, newline and carriage return separate words (`Words`); Rust's `split_whitespace` and `trim` also split on the other Unicode white-space characters.
- PaperRolls.Solve: the field must have a first row (`Wide`), since the source reads `field[0].len()` and panics on an empty field; a row narrower than the first, where the source indexes past its end, is excluded too.
- Presents.CountFitting: it is guaranteed to count a region only when the region needs no presents at all and passes the area test; that it counts every packable region is not promised, because the search `Go` is proved sound but not complete.
- Tachyon: the timeline counts of part two are `usize` sums in the source (`dp[i + 1][j - 1] + dp[i + 1][j + 1]`) and unbounded here, so their overflow on a very deep grid is not modelled.
- InvalidIds: ids are `u64` in the source and unbounded here. An id past `u64::MAX` parses here where `parse()` fails, and the overflow of the `u64` sum of invalid ids is not modelled.
- ColumnMath: operands are `u64` in the source and unbounded here. An operand past `u64::MAX` parses here where `parse::<u64>()` fails, and the overflow of the `u64` sums and products is not modelled.
- Reports: levels are `i32` in the source and unbounded integers here. A level outside the `i32` range is a number here where `parse().unwrap()` panics, and `(a - b).abs()` cannot overflow here.
- LocationLists: ids are `i32` in the source and unbounded integers here. An id outside the `i32` range parses here where `parse()` fails, and the overflow of the `i32` sum of distances is not modelled.
- LocksKeys: `String::len` counts bytes, not characters, so a line with non-ASCII characters is wider in the source than here, where a line's width is its number of characters.
- Keypads.WalkAsWritten, Keypads.BestAsWritten, Keypads.CheapestMoveAsWritten: no contracts of their own, since a contract on one of these mutually recursive functions makes the proofs about the others exceed the resource limit; what they compute is stated by `BestAsWrittenIsMin`, `CostAsWrittenFromBest`, `AsWrittenWalkLeavesKeypad` and `AsWrittenDefined`.
- Tachyon.RunOne, Tachyon.Split: no contracts of their own; what they compute is stated by `SplitOutcome`, `SplitRow`, `RunOneLast`, `RunOneStaysNone`, `RunOneFollowsTimelines` and `SolvePartOne`.

## Findings

| source | as written | input that shows it | evidently intended | confidence | as-written member | corrected member |
|---|---|---|---|---|---|---|
| aoc2025/src/problems/problem03.rs:45-59 | `concat(d[i], dp[i+1])` reads the digits of the number `dp[i+1]`, so zeros at the front of a chosen suffix are lost | the bank `100000000000` gives 1 | the largest number spelled by twelve digits kept in order, `100000000000` | not executed; high for banks holding a 0 digit, which the puzzle's banks (digits 1 to 9) never do | `Batteries.ZeroDigitBreaks` | `Batteries.Pick` (with `PickMaximal`, `PickAttained`, `JoltageIsPick`) |
| aoc2025/src/problems/problem12.rs:126-128 | the scan for a free cell in `go` has no bound on the row, so when every cell from `pos` on is taken while presents remain it indexes the row after the last one | region `3x3: 1 1` with present 0 `.##`/`###`/`###` and present 1 `#..`/`...`/`...`: the notched square placed at the corner leaves only cell (0,0) free, behind the scan; its other orientations fail without error, so the search panics, although the single cell fits the notch | stop the scan past the last row and answer `false` there, as the check on `pos[0]` at the top of `go` does | not executed; certain for the input shown, given that every orientation of present 0 is tried | `Presents.AsWrittenRunsOffTheEnd` (with `Presents.ScanAsWrittenPanics`) | `Presents.Bruteforcer.Go` (with `Presents.Bruteforcer.Scan`) |
| aoc2024/src/problems/problem04.rs:107 | `count_match` runs the start column over `0..cols - n + 1` with `n` the pattern's number of rows | pattern `X`/`X` in the grid `XX`/`XX` counts 1 though it fits at both columns; a pattern wider than tall, such as `XX` in `XX`, indexes past the row | the start column runs over `0..cols - m + 1` with `m` the pattern's width | not executed; harmless for the square `M.S`/`.A.`/`M.S` pattern the solver passes | `WordSearch.CountMatch` (with `WordSearch.TallPatternMissed`) | `WordSearch.CountWindows` (with `WordSearch.SquareAgrees`) |
| aoc2024/src/problems/problem09.rs:35-47 | the compaction loop only breaks when the scan for a free block reaches the end, which needs a file block at the end; with no file block left it pops the empty vector forever | the disk map `02` (file 0 empty, two free blocks) | stop once the vector is empty, giving the checksum 0 | not executed; certain for the input shown | `DiskCompaction.CompactAsWritten` (with `DiskCompaction.EmptyFileNeverStops`, `DiskCompaction.NoFilesNeverStops`) | `DiskCompaction.Compact` |
| aoc2024/src/problems/problem21.rs:386-392 | `is_pos_allowed` forbids the cell `(0, 2)` on a directional keypad, which is its `A` key, not its gap `(0, 0)` | moving a directional arm from `A` to `<` with `layers` at least 1: the route left-then-down over `(0, 0)` is kept | forbid the cell without a key, `(0, 0)`, as the numeric keypad's test forbids `(3, 0)` | not executed; certain for the move shown | `Keypads.CostAsWritten` (with `Keypads.AsWrittenCrossesGap`) | `Keypads.Cost` (with `Keypads.GapIsTheHole`, `Keypads.SurvivorsNonEmpty`, `Keypads.Oracle.Allowed`) |
| aoc2024/src/problems/problem21.rs:414-418 | `pos_down` is never advanced in the loop over `path_down`, so every step of the walk one layer down is priced as a move starting from `A` | moving a directional arm from `A` to `<`: the vertical-first route's last step, from `<` back to `A`, is priced from `A` to the cell `(-1, 4)` outside the keypad | advance `pos_down` to `next` after each step | not executed; certain for the move shown | `Keypads.CostAsWritten` (with `Keypads.AsWrittenWalkLeavesKeypad`) | `Keypads.Cost` (with `Keypads.Oracle.Walk`, `Keypads.CostAtLeastDistance`) |
| aoc2024/src/problems/problem21.rs:329-332 | for a zero displacement `to_paths2` takes the `dx == 0` branch and routes the arm below to `>` and back, so pressing the key under the arm again costs more than one press | a code with a repeated character, such as `77A`, with no robot in between: the second `7` costs 2 presses | a zero displacement is a single press of `A` one layer down | not executed; certain for the input shown | `Keypads.CostAsWritten` (with `Keypads.AsWrittenStayingCostsTwo`) | `Keypads.Cost` (with `Keypads.CostOfStaying`, `Keypads.CodeCostIsShortestTyping`) |
