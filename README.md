# Advent of Code 2024 solutions, modelled in Dafny

This project models the solutions in the repository `advent-of-code-2024`. It has one Dafny module per puzzle day, in a file named after the day: `one.dfy` is module `One`, and so on through `nineteen.dfy`. Three shared modules sit beside them:

- `Grids`: the four compass directions and their `advance` step, rectangular grids as `seq<seq<T>>` indexed `[y][x]`, row-major `position` lookup, and counting cells or positions that satisfy a predicate.
- `Decimal`: the decimal text of a natural number (`to_string`) and parsing it back, which day seven's concatenation operator needs.
- `Arith`: a few nonlinear facts that the day modules share.

Each day follows the form of its Rust source:

- **Imperative code stays imperative.** In-place updates of grids, maps and vectors, `while`/`loop` loops and work-list searches become methods with loop invariants. Objects whose methods update fields become classes: day seventeen's `Machine`, day nineteen's trie, day six's guard walk, day fifteen's warehouse, and day nine's address-keyed file system. Most methods are proved against a specification function, stated in their `ensures`. Day five's swap passes (`Five.Pass`, `Five.Reorder`) are proved against `Five.PassSpec` and `Five.ReorderSpec`, which fix the exact order the swaps leave. Day sixteen's part-one search (`Sixteen.SearchCosts`, `Sixteen.MinPath`) is instead specified by the properties it keeps: it bounds its costs. "## Left out" says what it leaves unstated.
- **Pure code becomes functions.** Recursion and iterator sums become functions, with lemmas relating them to an independent reference definition. A function that only computes a value, such as `Five.IsValid`, `Seven.IsValid`, `Nine.Checksum` or `Seventeen.Step`, has no row of its own in the table below. The rows of the lemmas and methods about it say what it means.

Other modelling choices:

- **Integers** are mathematical, with two exceptions. `usize::MAX`, which days sixteen and eighteen use as "unreached", is kept as the constant `2^64 - 1`. Day seventeen's `2u64.pow(e as u32)` keeps the `u32` cast of the exponent and panics when the power overflows (`Seventeen.Divide`).
- **Hash-map and hash-set contents** become Dafny `map`s and `set`s, since no answer depends on their iteration order.
- **Rust panics** (`unwrap`, `assert!`, indexing out of range) become preconditions, or an explicit error outcome where the code is expected to survive them.

Two details of day sixteen's code shape its model:

- In `min_path2`, a state reached again at an equal cost is pushed back on the work list (sixteen/src/main.rs:123-126). So not every update lowers a cost. Termination is proved with a lexicographic measure: the sum of the costs, then a weighted count of the work list.
- Part one (`min_path`) keeps one cost per cell, not per (cell, facing) state. It is therefore not proved to compute the lowest score.

## Model

| member | source | states |
|---|---|---|
| One.Sort | one/src/main.rs:15-16 | `sort` yields a sorted permutation of its input, of the same length |
| One.SortedUnique | one/src/main.rs:15-16 | two sorted lists with the same elements are equal, so sorting depends only on the multiset of values |
| One.PartOne | one/src/main.rs:11-19 | the summed pairwise distance of the sorted columns is never negative |
| One.DistanceZero | one/src/main.rs:18 | the summed distance of two equally long lists is zero exactly when the lists are equal |
| One.PartOneOrderIndependent | one/src/main.rs:11-19 | the answer depends only on the multisets of the two columns, not on the order of the lines |
| One.PartOneZero | one/src/main.rs:11-19 | the answer is zero exactly when both columns hold the same multiset of numbers |
| One.CountOccurrences | one/src/main.rs:24-27 | the count map has exactly the right-column values as keys, each mapped to its number of occurrences |
| One.PartTwo | one/src/main.rs:22-30 | the loop returns the similarity score: each left value times its number of occurrences on the right, summed |
| One.SimilarityAbsent | one/src/main.rs:29 | a left value that never occurs on the right adds nothing (`unwrap_or(&0)`) |
| One.SimilarityAppendRight | one/src/main.rs:29 | one more right value `x` raises the score by `x` times the number of `x` on the left |
| One.SimilaritySymmetric | one/src/main.rs:29 | the similarity score does not change when the two columns are swapped |
| One.SimilarityEmptyRight | one/src/main.rs:29 | an empty right column scores zero |
| Two.SafeIsMonotone | two/src/main.rs:3-10 | in a safe report any two levels differ by between 1 and 3 per step between them, all in one direction |
| Two.SafeWithoutEnd | two/src/main.rs:3-10 | dropping the first or the last level of a safe report keeps it safe |
| Two.IsSafe | two/src/main.rs:3-10 | a report with fewer than two levels has no differences and is safe |
| Two.PartOne | two/src/main.rs:12-21 | the loop counts the safe reports |
| Two.Remove | two/src/main.rs:31-32 | `Vec::remove(r)` shortens the report by one and shifts the levels after `r` left by one |
| Two.TryRemovals | two/src/main.rs:30-37 | the loop over removals finds a safe report exactly when removing some single level makes the report safe |
| Two.PartTwo | two/src/main.rs:23-41 | the loop counts the reports that are safe, or become safe after one removal |
| Two.PartsOrdered | two/src/main.rs:12-41 | the dampener never rejects a report part one accepts: part one <= part two <= number of reports |
| Three.PartOne | three/src/main.rs:24-32 | part one's sum counts the product of every `mul` in the memory, whatever `do()` and `don't()` say |
| Three.PartTwo | three/src/main.rs:34-54 | the fold adds up the products of exactly the `mul` instructions met while enabled |
| Three.EnabledMostRecent | three/src/main.rs:37-51 | after a prefix the fold is enabled exactly when every `don't()` in it is followed by a later `do()` |
| Three.EnabledAtMostAll | three/src/main.rs:24-54 | part two never exceeds part one's sum of all products |
| Three.NoDontCountsAll | three/src/main.rs:24-54 | with no `don't()` the two parts agree |
| Seven.ApplyReverse | seven/src/main.rs:17-29 | a value undone by `apply_reverse` redoes to the test value: `p * b`, `p + b` or `p` followed by `b`'s digits equals `a` |
| Seven.ReverseExact | seven/src/main.rs:17-29 | `apply_reverse` returns `p` exactly when applying the operator to `p` and `b` gives `a` (for a positive prefix in the concatenation case) |
| Seven.ReverseCat | seven/src/main.rs:21-27 | stripping `b`'s digits from the concatenation of a positive `p` and `b` gives back `p` |
| Seven.ConcatPrefix | seven/src/main.rs:21-27 | when `b`'s decimal form is a proper suffix of `a`'s, the remaining prefix is all digits, parses to at least 1 and concatenates with `b` to `a` |
| Seven.PrefixCanonical | seven/src/main.rs:23-25 | that prefix has no leading zero, so printing its parsed value gives the prefix back |
| Seven.IsValidCorrect | seven/src/main.rs:32-50 | for a line of positive numbers, `is_valid` does not panic, and holds exactly when some choice of operators from the list, applied left to right, evaluates the numbers to the test value |
| Seven.NoPanic | seven/src/main.rs:17-50 | a line whose numbers after the first are all non-zero never reaches the `a % b` panic of Mult |
| Seven.TryNoPanic | seven/src/main.rs:38-48 | the loop over the operators never panics on such a line |
| Seven.ZeroExamples | seven/src/main.rs:17-50 | a zero panics only when the search pops it: `3: 5 0 7` is not valid for Mult and Add, and `5: 5 0` panics |
| Seven.TryCorrect | seven/src/main.rs:38-48 | for positive numbers, the loop over the operators does not panic, and succeeds exactly when the operators from position `k` on contain a solving last operator |
| Seven.EvalPositive | seven/src/main.rs:32-50 | positive inputs evaluate to a positive value under any operators |
| Seven.Solve | seven/src/main.rs:52-61 | the loop sums the test values of the valid lines, and panics when the search of some line panics |
| Seven.ValidTotalPanics | seven/src/main.rs:52-61 | the total panics exactly when the search of one of the lines panics |
| Seven.ValidTotalCounts | seven/src/main.rs:52-61 | on lines of positive numbers the total does not panic, and a line that some operator choice solves contributes its test value to it |
| Seven.PartOne | seven/src/main.rs:63-66 | part one solves with multiplication and addition, and panics when a line's search does |
| Seven.PartTwo | seven/src/main.rs:68-71 | part two solves with multiplication, addition and concatenation, and panics when a line's search does |
| Seven.PartTwoCoversPartOne | seven/src/main.rs:63-71 | every line of positive numbers valid for part one is valid for part two |
| Thirteen.MinimumCost | thirteen/src/main.rs:54-71 | a returned cost is `3 * pa + pb` for presses `pa`, `pb` that land the claw exactly on the prize |
| Thirteen.MinimumCostComplete | thirteen/src/main.rs:54-71 | whenever some presses land on the prize, `minimum_cost` returns their cost (the solution of a non-singular system is unique) |
| Thirteen.NumeratorIsMultiple | thirteen/src/main.rs:55-58 | any solution makes Cramer's numerator `pa` times the determinant, so the first division is exact |
| Thirteen.SolutionFound | thirteen/src/main.rs:57-64 | exact divisions yield presses that solve both equations |
| Thirteen.ContributionIsCost | thirteen/src/main.rs:73-76 | a winnable machine adds the cost of its solution to the sum, an unwinnable one adds nothing |
| Thirteen.Shifted | thirteen/src/main.rs:82-84 | moving the prize keeps both buttons and the determinant |
| Thirteen.ShiftedAll | thirteen/src/main.rs:80-88 | every machine of part two is the moved machine of part one, in order |
| Thirteen.PartTwoSolves | thirteen/src/main.rs:78-89 | a part-two machine is won exactly by presses reaching the prize moved by 10000000000000 in both coordinates, at their cost |
| Eight.ThirdPoint | eight/src/main.rs:28-36 | a returned coordinate `r` mirrors `a` through `b` (`r + a == 2 * b`), and one is returned exactly when the mirror lies in [0, bound) |
| Eight.Antinode | eight/src/main.rs:38-44 | an antinode exists exactly when both coordinates have a third point; it mirrors `a` through `b` and stays on the grid |
| Eight.AntinodeIsReflection | eight/src/main.rs:38-44 | for antennas on the grid, `antinode(a, b)` is `p` exactly when `p` is on the grid and is the reflection of `a` through `b` |
| Eight.MarksOneAreReflections | eight/src/main.rs:74-84 | part one marks, for a pair, exactly the on-grid reflections of each antenna through the other |
| Eight.RayCollinear | eight/src/main.rs:92-98 | every cell the `while let` walk marks is the `k`-th point (`k >= 2`) on the line through the two antennas at their spacing |
| Eight.RayInGrid | eight/src/main.rs:92-98 | every cell the walk marks is on the grid |
| Eight.MarksInGrid | eight/src/main.rs:74-101 | both loop bodies only mark cells on the grid |
| Eight.MarksTwoOnLine | eight/src/main.rs:86-101 | every cell part two marks for a pair is on the grid and on the line through the pair at a whole multiple of their spacing |
| Eight.RayComplete | eight/src/main.rs:92-98 | the `while let` walk marks every grid point two or more spacings past the first antenna, so it stops only on leaving the grid |
| Eight.MarksTwoComplete | eight/src/main.rs:86-101 | every grid point on the line through a pair at a whole multiple of their spacing, on either side, is marked by part two |
| Eight.MarksTwoAreLine | eight/src/main.rs:86-101 | part two marks, for a pair, exactly the grid points on their line at whole multiples of their spacing |
| Eight.MarkTwoIsInLine | eight/src/main.rs:86-101 | a cell counts for part two exactly when it is a grid point in line with two distinct antennas of one frequency |
| Eight.PartTwoCoversPartOne | eight/src/main.rs:74-101 | part two marks both antennas and every cell part one marks |
| Eight.OverlayCells | eight/src/main.rs:57-70 | the overlay's `AntiNode` cells are exactly the marked positions |
| Eight.Mark | eight/src/main.rs:78 | writing `AntiNode` into the overlay adds exactly that position to the marked set |
| Eight.MarkRay | eight/src/main.rs:92-98 | the `while let` walk adds exactly its ray to the marked set |
| Eight.MarkPair | eight/src/main.rs:74-101 | one call of a loop body adds exactly the pair's marks to the marked set |
| Eight.MarkRow | eight/src/main.rs:65-67 | the inner loop adds the marks of `a` with every later antenna of its frequency |
| Eight.MarkPairs | eight/src/main.rs:63-68 | the nested loops add the marks of every pair `i < k` of one frequency's antennas |
| Eight.Locate | eight/src/main.rs:50-56 | the map lists, per frequency, exactly the antennas of that frequency in row-major order |
| Eight.PairsOfLocated | eight/src/main.rs:59-69 | marks collected over the frequency lists are exactly the marks of some pair of distinct antennas of one frequency |
| Eight.Solve | eight/src/main.rs:46-71 | the count is the number of positions marked by some pair of distinct equal-frequency antennas, at most width * height |
| Eight.PartOne | eight/src/main.rs:73-84 | counts the positions that reflect one antenna through another of the same frequency |
| Eight.PartTwo | eight/src/main.rs:86-102 | counts exactly the grid points in line with two distinct antennas of the same frequency, at a whole multiple of their spacing |
| Fourteen.TruncRem | fourteen/src/main.rs:20 | Rust's `%` truncates: the remainder takes the sign of `v`, its magnitude is below `m`, and `v - r` is a multiple of `m` |
| Fourteen.Modulo | fourteen/src/main.rs:18-29 | `modulo` is the non-negative (Euclidean) remainder |
| Fourteen.ModuloExamples | fourteen/src/main.rs:31-37 | the four cases of `modulo_test` hold |
| Fourteen.Move | fourteen/src/main.rs:47-50 | one second puts a robot on the grid, velocity unchanged |
| Fourteen.MoveAfter | fourteen/src/main.rs:47-49 | moving the robot `t` seconds on gives its position after `t + 1` seconds |
| Fourteen.MoveAllAfter | fourteen/src/main.rs:83-86 | moving every robot once more gives every robot after `t + 1` seconds |
| Fourteen.MoveAllPermutation | fourteen/src/main.rs:45-61 | the robots after a second depend only on the multiset of robots, not on the order they are visited |
| Fourteen.Push | fourteen/src/main.rs:58 | `entry(np).or_default().push(r)` adds one robot at `np` and nothing else |
| Fourteen.SimulateSecond | fourteen/src/main.rs:39-62 | the new map holds every robot of the old map moved one second, the number of robots is kept, and every key is on the grid |
| Fourteen.MoveGroup | fourteen/src/main.rs:46-59 | the inner loop adds the robots of one position, each moved |
| Fourteen.CountSection | fourteen/src/main.rs:64-72 | the loop counts the robots whose position is in [s, e) on both axes |
| Fourteen.Gather | fourteen/src/main.rs:76-79 | the map built from the input holds exactly the input robots |
| Fourteen.Quadrants | fourteen/src/main.rs:88-111 | the four sections of `part_one` leave out the middle column and the middle row |
| Fourteen.PartOne | fourteen/src/main.rs:74-113 | after 100 seconds the map holds every robot moved 100 times, and the result is the product of the four quadrant counts |
| Fourteen.DiagFactor | fourteen/src/main.rs:129-139 | the double loop counts the ordered pairs of occupied positions touching corner to corner; the count is even |
| Fourteen.DiagPairsEven | fourteen/src/main.rs:129-139 | a symmetric set of pairs has an even size |
| Fourteen.PartTwoTrial | fourteen/src/main.rs:150-156 | one trial of part two's search moves every robot a second and reports whether more than 250 diagonal pairs touch |
| Five.IndexMap | five/src/main.rs:15 | the index map sends each page to the index of its last occurrence, as `collect` into a `HashMap` keeps the last insertion |
| Five.LastAtIndexMap | five/src/main.rs:15 | a page maps to `i` exactly when `i` is the index of its last occurrence |
| Five.CheckRules | five/src/main.rs:16-24 | the rule loop succeeds exactly when every rule whose two pages are both present has the first page at an index no later than the second |
| Five.IsValidMeans | five/src/main.rs:14-25 | `is_valid` holds exactly when, for every rule, the last occurrence of its first page is not after the last occurrence of its second |
| Five.ValidDistinct | five/src/main.rs:14-25 | for an update without repeated pages, `is_valid` holds exactly when no rule's pages appear in the wrong order |
| Five.ConsistentIsIndexMap | five/src/main.rs:40-41 | for an update without repeated pages, a map that tracks each page's index is the index map of the current order |
| Five.SwapStep | five/src/main.rs:51-53 | swapping the two pages and exchanging their indices keeps the index map in step with the update, keeps its pages and keeps them distinct |
| Five.PassKeeps | five/src/main.rs:44-57 | a pass over the rules keeps the index map in step with the update, keeps its pages, and keeps them distinct |
| Five.PassNoSwap | five/src/main.rs:44-57 | a pass makes no swap exactly when every rule holds in the index map it starts from, and then it changes neither the update nor the map |
| Five.Pass | five/src/main.rs:43-57 | one pass swaps, in the update and in the index map, the pages of each rule, in rule order, whose first page is tracked at a later index than its second, and counts the swaps (as `PassSpec`) |
| Five.PassesKeep | five/src/main.rs:42-62 | repeated passes keep the pages, change nothing unless one swaps, and report a swap exactly when a rule is broken in the starting index map |
| Five.HoldingIsValid | five/src/main.rs:58-59 | for an update without repeated pages, a pass without swaps leaves an order that `is_valid` accepts |
| Five.PassesValid | five/src/main.rs:42-61 | for an update without repeated pages, passes that end with a pass without swaps end on a valid order |
| Five.Reorder | five/src/main.rs:38-63 | reordering in place ends with the update and the returned swap flag that the passes of `ReorderSpec` give, starting from the index map of the update, with at most `fuel` passes |
| Five.ReorderSpecMeans | five/src/main.rs:38-63 | reordering reports a swap exactly when the update was not valid, keeps its pages, leaves a valid update unchanged, and leaves a valid order when it finishes on an update without repeated pages |
| Five.ReorderExample | five/src/main.rs:44-57 | with the one rule `2|3`, the update `3,1,2` is reordered to exactly `2,1,3` (middle page 1), not to any other valid order |
| Five.PartOne | five/src/main.rs:27-36 | sums the middle pages of the valid updates |
| Five.ReorderCopy | five/src/main.rs:69-70 | the update is copied and reordered, with the result and flags `ReorderSpec` gives |
| Five.ReorderAllFrom | five/src/main.rs:68-70 | each update and its reordering have the same pages, a valid update is unchanged, and when every reordering finished, an update without repeated pages is reordered into a valid order |
| Five.PartTwo | five/src/main.rs:65-75 | sums the middle pages of exactly the updates that were not valid, each taken from the order `ReorderSpec` leaves it in, and reports whether every reordering finished |
| Seventeen.XorBound | seventeen/src/main.rs:69 | exclusive or of two numbers below `2^n` stays below `2^n` |
| Seventeen.Machine.constructor | seventeen/src/main.rs:32-41 | a new machine holds the input registers, the program, `pc == 0` and no output |
| Seventeen.Machine.Next | seventeen/src/main.rs:43-51 | `next` fails with `InvalidPc` past the end, otherwise returns the word at `pc` and advances `pc` |
| Seventeen.Machine.Combo | seventeen/src/main.rs:53-61 | `combo` reads a literal 0-3 or register A, B or C for 4-6 and panics on 7 |
| Seventeen.Machine.RunOne | seventeen/src/main.rs:63-96 | `run_one` performs exactly one step of the instruction semantics on the machine's registers, `pc` and output |
| Seventeen.StepOutput | seventeen/src/main.rs:83-86 | a step either keeps the output or appends one value below 8, and only `out` (opcode 5) appends |
| Seventeen.StepPastEnd | seventeen/src/main.rs:44-46 | with `pc` past the program a step fails with `InvalidPc` and changes nothing |
| Seventeen.JumpStep | seventeen/src/main.rs:74-78 | `jnz` falls through when A is zero and otherwise jumps to its operand, failing when the operand is missing |
| Seventeen.ComboSevenPanics | seventeen/src/main.rs:59 | a combo operand of 7 or more panics |
| Seventeen.StepKeepsWidth | seventeen/src/main.rs:63-96 | when the registers and program words fit in `n >= 3` bits, so do the registers after a step |
| Seventeen.DivideBelow | seventeen/src/main.rs:66 | `a / 2^e` never exceeds `a` |
| Seventeen.Divide | seventeen/src/main.rs:66 | `a / 2u64.pow(e as u32)` succeeds exactly when the exponent cut to 32 bits is below 64, and then gives the floor of `a` over that power |
| Seventeen.RunOutput | seventeen/src/main.rs:102 | running keeps the earlier output as a prefix, adds at most one value per step, and every value is an octal digit |
| Seventeen.JoinDigits | seventeen/src/main.rs:103 | the joined output has one digit per value separated by commas |
| Seventeen.PartOne | seventeen/src/main.rs:99-104 | runs until `run_one` fails and reports the joined output, a panic, or no answer within the fuel |
| Seventeen.PrintedIsOctalList | seventeen/src/main.rs:99-104 | a printed answer alternates octal digits and commas |
| Nineteen.PrefixesSnoc | nineteen/src/main.rs:40-48 | one more color of a towel adds exactly one more prefix node |
| Nineteen.Trie.constructor | nineteen/src/main.rs:88 | the empty trie has only its root and no towel end |
| Nineteen.Trie.Add | nineteen/src/main.rs:38-50 | `add` adds every prefix of the towel as a node and marks the towel's node as an end, keeping the trie closed under prefixes |
| Nineteen.Trie.LookUp | nineteen/src/main.rs:52-54 | `look_up` finds the child for color `c` exactly when that extension is a node of the trie |
| Nineteen.SplitOf | nineteen/src/main.rs:60-84 | a possible pattern suffix is a concatenation of non-empty towels |
| Nineteen.SplitIsPossible | nineteen/src/main.rs:60-84 | any concatenation of non-empty towels that spells the suffix makes it possible |
| Nineteen.NoLongerTowel | nineteen/src/main.rs:71-74 | once the walk leaves the trie, no longer slice of the pattern is a towel |
| Nineteen.IsPossible | nineteen/src/main.rs:60-84 | `is_possible` returns whether the suffix from `index` splits into towels, and its cache only ever holds correct answers |
| Nineteen.NotPossible | nineteen/src/main.rs:70-82 | when no towel ends before the walk stops and no longer slice is a towel, the suffix is not possible, so answering false is right |
| Nineteen.FoundSplit | nineteen/src/main.rs:75-77 | a towel followed by a possible suffix makes the suffix possible, so answering true is right |
| Nineteen.WaysPositive | nineteen/src/main.rs:105-128 | the number of ways is positive exactly when the suffix is possible |
| Nineteen.PartialPositive | nineteen/src/main.rs:116-124 | the ways counted up to `i` are positive exactly when some towel ending by `i` is followed by a possible suffix |
| Nineteen.PartialWaysFlat | nineteen/src/main.rs:117-119 | once no longer slice is a towel, the count stops growing, so breaking out of the loop loses nothing |
| Nineteen.NumWays | nineteen/src/main.rs:105-128 | `num_ways` returns the number of ways to split the suffix from `index` into towels, and its cache only ever holds correct counts |
| Nineteen.BuildTrie | nineteen/src/main.rs:88-91 | adding every towel gives a trie whose ends are exactly the towels |
| Nineteen.PartOne | nineteen/src/main.rs:86-100 | counts the patterns that can be made from the towels |
| Nineteen.PartTwo | nineteen/src/main.rs:130-142 | sums the numbers of ways to make each pattern |
| Nineteen.PartsAgree | nineteen/src/main.rs:86-142 | part one never exceeds part two, and one is zero exactly when the other is |
| Twelve.PerimeterBound | twelve/src/main.rs:22-41 | a region's perimeter is at most four fences per plot |
| Twelve.FencesBound | twelve/src/main.rs:29-39 | any selection of a cell's four sides, summed over the cells, counts at most four per cell |
| Twelve.CountOpen | twelve/src/main.rs:30-38 | counts exactly the directions in which the plot's neighbour is off the grid or outside the region |
| Twelve.CalculatePerimeter | twelve/src/main.rs:22-41 | the perimeter is the number of (plot, direction) pairs whose neighbour is off the grid or not in the region; repeated plots count once, as in the `HashSet` |
| Twelve.InheritedNorthWest | twelve/src/main.rs:49-59 | the inherited labels are the North then West neighbour's label, each only when that neighbour has the same plant and is already labelled |
| Twelve.Inherited | twelve/src/main.rs:49-59 | `neighbor_groups` collects at most one label per direction it looks in |
| Twelve.InheritedLabelled | twelve/src/main.rs:49-59 | every label `neighbor_groups` collects is one already handed out, never the unlabelled 0 |
| Twelve.VisitCell | twelve/src/main.rs:49-69 | a visited cell takes a fresh label when no neighbour is inherited, otherwise the first inherited label, and records a connection when there are two; the labelling invariant then covers that cell |
| Twelve.RelabelCells | twelve/src/main.rs:72-76 | every cell labelled `a` is relabelled `b` and no other cell changes |
| Twelve.RenameAll | twelve/src/main.rs:77-84 | both ends of every remaining connection are renamed from `a` to `b` |
| Twelve.MergeStep | twelve/src/main.rs:71-85 | popping a connection and renaming its first label to its second keeps the labelling invariant: labels keep their plant, and neighbours with the same plant stay joined through the remaining connections |
| Twelve.JoinedRenamed | twelve/src/main.rs:71-85 | two labels joined before the rename are joined after it, with the renamed labels |
| Twelve.LabelledDone | twelve/src/main.rs:71 | once no connection is left, every pair of neighbours with the same plant carries the same label |
| Twelve.CalculateGroups | twelve/src/main.rs:43-87 | every cell gets a label between 1 and `next_group - 1`, cells with the same label grow the same plant, and adjacent cells of the same plant get the same label |
| Twelve.SidesAtMostPerimeter | twelve/src/main.rs:107-150 | a region has no more sides than fences |
| Twelve.MyFences | twelve/src/main.rs:121-130 | lists, without repeats, exactly the directions in which the plot is fenced |
| Twelve.AssignFences | twelve/src/main.rs:131-146 | the plot gets an id for each of its fences, and the id counter grows by the number of those fences that start a new side, those whose West or North neighbour carries no fence facing the same way |
| Twelve.CalculateSides | twelve/src/main.rs:107-150 | visiting the plots in row-major order, the number of ids handed out is the number of fences with no same-facing fence on the plot to their West (for North and South) or North (for East and West) |
| Twelve.RegionCells | twelve/src/main.rs:95-96 | the filtered positions of label `g` are the cells of that region, each once and on the grid |
| Twelve.RegionPrice | twelve/src/main.rs:95-102 | one label's price is its area times its perimeter, or times its number of sides in part two, and zero for a label with no cells |
| Twelve.Tally | twelve/src/main.rs:93-104 | the total is the sum of the prices of labels 1 to `next_group - 1` |
| Twelve.TotalStep | twelve/src/main.rs:94-103 | adding one more label adds exactly that label's price |
| Twelve.BulkNoDearer | twelve/src/main.rs:152-168 | the bulk price of part two never exceeds the price of part one |
| Twelve.PriceBound | twelve/src/main.rs:102 | a region's price is at most four times the square of its area |
| Twelve.PartOne | twelve/src/main.rs:89-105 | labels the grid as `calculate_groups` promises and sums area times perimeter over the labels |
| Twelve.PartTwo | twelve/src/main.rs:152-168 | labels the grid as `calculate_groups` promises and sums area times sides over the labels |
| Grids.Advance | ten/src/main.rs:20-29 | `advance` gives the neighbour in direction `d` exactly when that neighbour is on the grid, and nothing otherwise |
| Grids.AdvanceAdjacent | ten/src/main.rs:20-29 | a neighbour given by `advance` is on the grid and orthogonally adjacent |
| Grids.AdjacentHasDirection | ten/src/main.rs:20-29 | every orthogonally adjacent cell on the grid is reached by `advance` in some direction |
| Grids.AllDirectionsComplete | ten/src/main.rs:12-18 | iterating the direction enum visits every direction |
| Grids.Position | sixteen/src/main.rs:90 | `position` returns a cell holding the value with none before it in row-major order, and nothing exactly when no cell holds it |
| Grids.PositionIs | sixteen/src/main.rs:90 | a cell holding the value with none before it in row-major order is the one `position` returns |
| Grids.PositionSame | six/src/main.rs:121 | grids of one shape that hold the value in the same cells give the same `position` |
| Grids.PositionsExact | eight/src/main.rs:51 | `positions()` yields every cell of the grid exactly once and nothing else |
| Ten.Next | ten/src/main.rs:43-46 | a step of a trail goes to an adjacent cell on the grid that is exactly one higher |
| Ten.TrailsExact | ten/src/main.rs:66-82 | the trails `find_trails` enumerates from a cell are exactly the hiking trails that start there: steps to adjacent cells, each one higher, ending at height 9 |
| Ten.TrailsAreTrails | ten/src/main.rs:66-82 | every enumerated trail is a hiking trail from the cell |
| Ten.TrailsComplete | ten/src/main.rs:66-82 | every hiking trail from the cell is enumerated |
| Ten.TrailLength | ten/src/main.rs:66-82 | a hiking trail from height `k` visits `10 - k` cells |
| Ten.EndsExact | ten/src/main.rs:31-51 | the ends `find_trail_ends` collects are exactly the cells of height 9 reachable by a hiking trail |
| Ten.EndsAtMostTrails | ten/src/main.rs:31-82 | a cell has no more reachable ends than trails |
| Ten.ViaCard | ten/src/main.rs:72-79 | the trails through one direction are as many as the trails from that neighbour, and none when the step is not allowed |
| Ten.ViaDisjoint | ten/src/main.rs:72-79 | trails leaving through different directions are different, so their counts add up |
| Ten.DirectionStep | ten/src/main.rs:72-79 | one more direction adds its trails and its ends to the running totals |
| Ten.FindTrails | ten/src/main.rs:66-82 | `find_trails` returns the number of hiking trails from the cell |
| Ten.FindTrailEnds | ten/src/main.rs:31-51 | `find_trail_ends` adds exactly the reachable ends of the cell to the set |
| Ten.CellStep | ten/src/main.rs:56-62 | a cell adds its score or rating to the running total only when it is a trailhead |
| Ten.PartOne | ten/src/main.rs:53-64 | sums, over the trailheads, the number of distinct height-9 cells each reaches |
| Ten.PartTwo | ten/src/main.rs:84-93 | sums, over the trailheads, the number of trails from each |
| Ten.ScoreAtMostRating | ten/src/main.rs:53-93 | part one's total never exceeds part two's |
| Ten.OnlyTrailheadsCount | ten/src/main.rs:57 | cells that are not trailheads contribute nothing to either total |
| Decimal.ToDecimal | seven/src/main.rs:23-24 | `to_string` writes a number with no leading zero, using as many digits as its size needs |
| Decimal.ParseDecimal | seven/src/main.rs:25 | parsing `n` digits gives a value below 10^n |
| Decimal.ParseToDecimal | seven/src/main.rs:23-25 | parsing a number's decimal text gives the number back |
| Decimal.ToDecimalParse | seven/src/main.rs:23-25 | printing the value of a text without a leading zero gives the text back |
| Decimal.ToDecimalInjective | seven/src/main.rs:21-27 | different numbers have different decimal texts |
| Decimal.ParseAppend | seven/src/main.rs:23-25 | parsing two digit strings joined is the first value shifted by the second's length plus the second value |
| Decimal.ConcatText | seven/src/main.rs:21-27 | the text of `p` concatenated with `b` is `p`'s text followed by `b`'s |
| Nine.Layout | nine/src/main.rs:25-43 | the disk has one block per unit of the digits' sum |
| Nine.FromInput | nine/src/main.rs:25-43 | the loop lays out, digit by digit, file `k / 2` for even positions and free blocks for odd ones |
| Nine.LayoutFileBlocks | nine/src/main.rs:25-43 | file `id` occupies exactly as many blocks as the digit at position `2 * id` |
| Nine.LayoutIdsOrdered | nine/src/main.rs:27-39 | file ids are below half the input length and never decrease along the disk |
| Nine.FileBlockDigit | nine/src/main.rs:31-32 | a block of file `id` exists only when digit `2 * id` is positive |
| Nine.DigitFileBlock | nine/src/main.rs:31-32 | a positive digit at position `2 * id` puts file `id` on the disk |
| Nine.LayoutHasFile | nine/src/main.rs:25-43 | the disk holds a file exactly when some even-position digit is positive |
| Nine.HasFileMultiset | nine/src/main.rs:80 | rearranging blocks keeps whether there is a file |
| Nine.ChecksumNoFile | nine/src/main.rs:45-54 | a disk with no file has checksum zero |
| Nine.ChecksumUpdate | nine/src/main.rs:45-54 | replacing one block changes the checksum by the difference of the two blocks' weights |
| Nine.SwapLowersChecksum | nine/src/main.rs:80 | moving a file block from `j` down to a free block at `i` lowers the checksum by `(j - i) * id` |
| Nine.FirstEmptyBefore | nine/src/main.rs:78-83 | finds the first free block before `i`, or `i` when there is none |
| Nine.Compact | nine/src/main.rs:70-86 | the loop leaves the disk as compaction of the input disk, and fails exactly when the disk has no file (the `i -= 1` underflow), leaving it unchanged |
| Nine.CompactingCompacts | nine/src/main.rs:70-86 | compaction keeps the multiset of blocks and leaves no free block before a file block |
| Nine.CompactingIsSpec | nine/src/main.rs:70-86 | compaction equals the independent description: with `n` file blocks, the free blocks among the first `n` are filled left to right by the file blocks beyond `n` taken right to left, and free space follows |
| Nine.CompactingExample | nine/src/main.rs:78-83 | on the disk `[0, ., 1]` the last file block fills the gap, giving `[0, 1, .]` and checksum 1 |
| Nine.CompactingNoFile | nine/src/main.rs:72 | a disk without file blocks is left as it is |
| Nine.SwapStep | nine/src/main.rs:78-81 | swapping the file block at `i` into the first free block keeps the loop state: free blocks from `i` on, same blocks, same compaction result |
| Nine.ScanDone | nine/src/main.rs:85 | stopping at a file block with no free block before it and only free blocks after it leaves exactly the compaction of the input disk |
| Nine.PartOne | nine/src/main.rs:66-88 | answers exactly when the disk holds a file, with the checksum of the compacted disk, which is determined by the input (the independent description), keeps the blocks and puts every file block before every free block |
| Nine.Fs2.FromInput | nine/src/main.rs:126-142 | the entry map is the one built by inserting each digit's entry at the running address, a later entry replacing an earlier one at the same address |
| Nine.InputMapEntry | nine/src/main.rs:131-139 | the entry for digit `k` sits at the sum of the earlier digits, a file `k / 2` or free span of that size |
| Nine.InputMapTiled | nine/src/main.rs:126-142 | the built entries do not overlap and end by the digits' sum |
| Nine.InputMapSize | nine/src/main.rs:126-142 | the built entries cover as many blocks as the digits' sum |
| Nine.ChecksumsAgree | nine/src/main.rs:189-197 | the entry map's checksum equals the block checksum of the same disk |
| Nine.FirstFit | nine/src/main.rs:144-153 | the chosen address is the lowest free span of at least the file's size, and none means no span fits |
| Nine.Fs2.FindEmptyAtLeast | nine/src/main.rs:144-153 | the in-order scan returns the lowest fitting free span |
| Nine.Fs2.MoveFile | nine/src/main.rs:155-186 | the move succeeds exactly when the source is a file and the target a free span at least as large as the file (otherwise `empty_size - file_size` underflows), leaving the entries the move function gives, and changes nothing on a panic |
| Nine.MovedTotalSize | nine/src/main.rs:155-186 | a move on non-overlapping entries keeps the number of blocks covered |
| Nine.MovedTiled | nine/src/main.rs:155-186 | a move keeps the entries from overlapping |
| Nine.MovedKeepsFiles | nine/src/main.rs:155-186 | every other file stays at its address unchanged |
| Nine.MovedSourceFree | nine/src/main.rs:167 | the source address no longer holds a file |
| Nine.MovedTarget | nine/src/main.rs:168-174 | the target holds the moved file, unless an empty file was moved into a larger span |
| Nine.FileKeys | nine/src/main.rs:204-209 | lists exactly the file addresses, highest first |
| Nine.Visit | nine/src/main.rs:212-222 | one round of the loop panics exactly when the address holds no file, and leaves the disk as it is when no fitting free span starts left of the file |
| Nine.VisitAllSafe | nine/src/main.rs:211-223 | visiting files highest first never panics, and keeps the entries from overlapping and the blocks covered |
| Nine.DefragmentedSafe | nine/src/main.rs:200-225 | defragmenting any input succeeds, with non-overlapping entries covering the digits' sum |
| Nine.PartTwo | nine/src/main.rs:200-225 | returns the checksum of the entries after moving each file, highest address first, into the lowest free span before it that fits |
| Six.PathFromGrid | six/src/main.rs:39-45 | the path grid has the map's shape, row by row |
| Six.PathFromGridCells | six/src/main.rs:39-45 | the path grid marks obstructions as obstructed, the guard's cell as visited and empty cells as unvisited |
| Six.Step | six/src/main.rs:50-93 | the guard leaves exactly when the cell ahead is off the map, and otherwise stays on the map and never steps onto an obstruction |
| Six.StepMoves | six/src/main.rs:50-93 | a step either turns right in place, exactly when the cell ahead is an obstruction, or moves one cell ahead keeping its facing |
| Six.StepSameObstructions | six/src/main.rs:55-86 | the step depends only on where the obstructions are, not on which cells are marked visited |
| Six.Patrol.constructor | six/src/main.rs:101-104 | a patrol starts with the given path grid, position and facing |
| Six.Patrol.Walk | six/src/main.rs:47-94 | `walk` marks the current cell visited, returns true exactly when the guard leaves the map, and otherwise moves or turns as the step function says |
| Six.GoneStaysGone | six/src/main.rs:106-108 | once the guard has left, later walks have left too |
| Six.SameAfter | six/src/main.rs:126-133 | the walk is deterministic: equal states stay equal after one more step |
| Six.CycleCovers | six/src/main.rs:126-133 | once a state recurs, every later state is one of the states before the recurrence |
| Six.RecurrenceTraps | six/src/main.rs:131-132 | a state seen twice means the guard never leaves |
| Six.RouteStable | six/src/main.rs:105-109 | after the guard has left, the set of walked cells stops growing |
| Six.RouteFree | six/src/main.rs:47-94 | the guard only ever stands on cells of the map that are not obstructions |
| Six.WalkedIs | six/src/main.rs:105-109 | when the walk stops after `n` calls, the guard escapes and the walked cells are those of the first `n` calls |
| Six.TrailStep | six/src/main.rs:106 | marking the current cell keeps the path grid in step with the walk on the original grid |
| Six.WalkOut | six/src/main.rs:105-110 | walking until the guard leaves marks exactly the cells the guard stood on |
| Six.PartOneInner | six/src/main.rs:100-111 | the final path grid keeps the obstructions and the guard's start cell and marks an empty cell visited exactly when the guard walked it |
| Six.MarkedVisited | six/src/main.rs:96-98 | the visited cells of the final path grid are the guard's start cell and the cells it walked |
| Six.PartOne | six/src/main.rs:114-118 | counts the distinct cells the guard stands on before leaving, its start cell included |
| Six.CodeInjective | six/src/main.rs:125 | distinct states have distinct codes, so the visited set counts states |
| Six.StatesBound | six/src/main.rs:125 | there are at most four states per cell of the map |
| Six.SeenStep | six/src/main.rs:127 | a new state grows the visited set by one |
| Six.SeenBound | six/src/main.rs:126-134 | while every state is new, the walk is shorter than four times the number of cells |
| Six.Circles | six/src/main.rs:120-135 | `stuck_in_loop`'s walk reports a loop exactly when the guard never leaves |
| Six.StuckInLoop | six/src/main.rs:120-135 | on a map with a guard, the loop check holds exactly when the guard never leaves that map |
| Six.ObstructedGuard | six/src/main.rs:144-145 | placing an obstruction on an empty cell keeps the map's shape and the guard's start |
| Six.Trial | six/src/main.rs:143-148 | a cell counts exactly when it is empty, on the walked route, and an obstruction there traps the guard |
| Six.TrialStep | six/src/main.rs:141-151 | one more cell adds one to the count exactly when it is a trap |
| Six.Scan | six/src/main.rs:141-151 | the double loop counts the cells that are traps |
| Six.PartTwo | six/src/main.rs:137-153 | counts the empty cells on the guard's route where one new obstruction makes the guard walk forever |
| Fifteen.Shift | fifteen/src/main.rs:63-65 | the move panics exactly when the target is not empty, changing nothing then, and otherwise moves the cell to the target, leaves its old place empty and changes nothing else |
| Fifteen.Push | fifteen/src/main.rs:49-68 | a blocked move changes nothing; a successful one moves the pusher to its neighbour in the direction of travel and empties its old cell |
| Fifteen.PushOutcome | fifteen/src/main.rs:55-61 | the move is blocked exactly when the line of boxes ends at the map's edge or a wall, and panics exactly when it ends at a robot |
| Fifteen.PushFrame | fifteen/src/main.rs:49-68 | cells behind the pusher and off its line are never changed |
| Fifteen.PushMover | fifteen/src/main.rs:64 | after a successful move the pusher's old content stands in its new cell |
| Fifteen.PushShiftAt | fifteen/src/main.rs:59-65 | a successful move shifts the pusher and every box of its line one cell forward |
| Fifteen.PushBeyondAt | fifteen/src/main.rs:59-65 | cells on the line beyond the first free cell are unchanged |
| Fifteen.PushNoPanic | fifteen/src/main.rs:63 | with no robot ahead on the line the assertion never fires |
| Fifteen.PushContents | fifteen/src/main.rs:63-65 | a move that does not panic keeps the multiset of cells |
| Fifteen.Warehouse.AttemptMove | fifteen/src/main.rs:49-68 | `attempt_move` returns the outcome and leaves the floor that the push function gives |
| Fifteen.Run | fifteen/src/main.rs:72-79 | following the instructions keeps the map's shape and the robot on the map, unless a move panics |
| Fifteen.RunStep | fifteen/src/main.rs:74-79 | with a single robot, a move never panics, keeps the cells and leaves a single robot at the new position |
| Fifteen.RunSafe | fifteen/src/main.rs:74-79 | running any instructions from a map with a single robot never panics and keeps a single robot and the same cells |
| Fifteen.GpsSame | fifteen/src/main.rs:81-86 | the GPS sum depends only on which cells hold boxes |
| Fifteen.PartOne | fifteen/src/main.rs:70-87 | runs every instruction from the robot's first position and sums `100 * y + x` over the boxes, answering whenever the map has exactly one robot |
| FifteenWide.WideRow | fifteen/src/main.rs:106-127 | a widened row is twice as long, each cell becoming its left and right half |
| FifteenWide.WideShape | fifteen/src/main.rs:103-130 | the widened map is twice as wide and holds each cell's two halves side by side |
| FifteenWide.WidePosition | fifteen/src/main.rs:121-124 | the robot's first position on the wide map is its row and twice its column |
| FifteenWide.Map2FromMap | fifteen/src/main.rs:103-130 | the loops build exactly the widened map |
| FifteenWide.Push2 | fifteen/src/main.rs:132-163 | a successful wide move goes to the neighbour in the direction of travel and empties the pusher's old cell |
| FifteenWide.Drag | fifteen/src/main.rs:149-156 | the stage that drags the other half of a box keeps the grid and, when it succeeds, still moves to the neighbour |
| FifteenWide.Finish | fifteen/src/main.rs:158-162 | the final stage moves the pusher into the empty neighbour and empties its old cell |
| FifteenWide.Push2Frame | fifteen/src/main.rs:132-163 | a wide move, successful or not, writes nothing outside the cells its pushes can reach |
| FifteenWide.Push2Contents | fifteen/src/main.rs:158-160 | a wide move keeps the multiset of cells |
| FifteenWide.Push2Mover | fifteen/src/main.rs:159 | after a successful wide move the pusher's old content stands in its new cell |
| FifteenWide.DragsRightHalf | fifteen/src/main.rs:150 | pushing a box's left half up or down also moves its right half |
| FifteenWide.DragsLeftHalf | fifteen/src/main.rs:153 | pushing a box's right half up or down also moves its left half |
| FifteenWide.FailedPushWrites | fifteen/src/main.rs:171-177 | a blocked wide move can already have moved part of the boxes, which is why part two moves on a copy and keeps it only on success |
| FifteenWide.WideWarehouse.AttemptMove2 | fifteen/src/main.rs:132-163 | `attempt_move2` returns the outcome and leaves the floor that the wide push function gives |
| FifteenWide.WideWarehouse.DragStage | fifteen/src/main.rs:149-156 | the drag stage leaves the floor the drag function gives |
| FifteenWide.WideWarehouse.FinishStage | fifteen/src/main.rs:158-162 | the final stage leaves the floor the finish function gives |
| FifteenWide.Run2 | fifteen/src/main.rs:169-178 | following the instructions on the wide map keeps its shape and the robot on it, unless a move panics |
| FifteenWide.Run2Keeps | fifteen/src/main.rs:171-178 | running instructions on the wide map keeps its cells and keeps the robot under the tracked position |
| FifteenWide.PartTwo | fifteen/src/main.rs:165-184 | widens the map, runs every instruction on copies kept only on success, and sums `100 * y + x` over the left box halves |
| Sixteen.Index | sixteen/src/main.rs:19-26 | `d as usize` is the position of `d` in `Direction::iter()` |
| Sixteen.Step | sixteen/src/main.rs:49-52 | a step toward `nd` exists exactly when `advance` gives a neighbour that is not a wall, and it lands there facing `nd` |
| Sixteen.Put | sixteen/src/main.rs:117-124 | writing one table entry changes that entry and no other |
| Sixteen.TotalCostPut | sixteen/src/main.rs:117-120 | writing an entry changes the sum of all costs by the difference of the two costs |
| Sixteen.CostGridSet | sixteen/src/main.rs:117-120 | the cost grid of an updated entry grid is the cost grid with that one cost updated |
| Sixteen.TotalCostNonnegative | sixteen/src/main.rs:92-96 | with every cost non-negative, the sum of costs is non-negative |
| Sixteen.RankStep | sixteen/src/main.rs:121-125 | a pushed state of higher cost weighs at most a fifth of the popped one, so the search terminates |
| Sixteen.WeightAppend | sixteen/src/main.rs:100 | the stack's weight is additive over concatenation |
| Sixteen.HeavierBound | sixteen/src/main.rs:121-125 | states of cost above `c` weigh at most `Rank(c + 1)` each |
| Sixteen.PushedWeight | sixteen/src/main.rs:107-130 | an expansion that lowers no cost leaves a stack lighter than before the pop |
| Sixteen.LowerKeepsRelaxedDir | sixteen/src/main.rs:115-128 | lowering a cost, or keeping it while keeping its predecessors, keeps every other relaxed edge relaxed |
| Sixteen.UpdateStep | sixteen/src/main.rs:115-126 | the `Less` and `Equal` updates keep the search invariant and relax the current edge |
| Sixteen.SkipStep | sixteen/src/main.rs:109-111 | skipping a wall, the map's edge or a dearer score keeps the invariant |
| Sixteen.PopStep | sixteen/src/main.rs:100-105 | popping a state other than the End cell starts its expansion under the invariant |
| Sixteen.PopEndStep | sixteen/src/main.rs:101-103 | popping the End cell skips it and keeps the invariant |
| Sixteen.Relax | sixteen/src/main.rs:108-129 | one relaxation keeps the invariant, never raises a cost or the cost of the expanded state, and pushes at most one state, of higher cost |
| Sixteen.Expand | sixteen/src/main.rs:107-130 | expanding a state relaxes all four of its edges and either lowers the sum of costs or pushes only dearer states |
| Sixteen.InitialTable | sixteen/src/main.rs:92-96 | the table starts with cost 0 at the start cell, in every facing, and the `CostEntry::new` entry elsewhere |
| Sixteen.InitialInv | sixteen/src/main.rs:92-98 | the initial table and stack satisfy the search invariant |
| Sixteen.FinalSolved | sixteen/src/main.rs:100 | when the stack is empty, every cost is tight through its predecessors and every reached edge is relaxed |
| Sixteen.SearchTable | sixteen/src/main.rs:92-131 | the search loop ends with a solved table |
| Sixteen.WalkCostSplit | sixteen/src/main.rs:113 | a path's score splits at any state into the scores of its two parts |
| Sixteen.NoCheaperWalk | sixteen/src/main.rs:100-131 | in a solved table no walk reaches a state more cheaply than its recorded cost |
| Sixteen.PathOfCost | sixteen/src/main.rs:100-131 | every reached state has a path from the start whose score is its recorded cost |
| Sixteen.ChainWalk | sixteen/src/main.rs:142-151 | a chain of predecessors, read backwards, is a walk whose score is the difference of the two costs |
| Sixteen.MinEndCost | sixteen/src/main.rs:133-136 | `min_cost` is the lowest of the four End-cell costs and is one of them |
| Sixteen.MinEndIsOptimal | sixteen/src/main.rs:133-136 | the lowest End-cell cost is the lowest score of any path from the start to the End cell |
| Sixteen.OptimalIsMinEnd | sixteen/src/main.rs:133-136 | the lowest path score, when there is one, is the lowest End-cell cost |
| Sixteen.BestPathTight | sixteen/src/main.rs:115-126 | along a best path every prefix costs exactly the recorded cost of its last state |
| Sixteen.BestPathPred | sixteen/src/main.rs:119-124 | each state of a best path is recorded as a predecessor of the next |
| Sixteen.BestPathReached | sixteen/src/main.rs:142-151 | the backward walk from a best End state meets every state of every best path ending there |
| Sixteen.ReachedOnBestPath | sixteen/src/main.rs:142-151 | every state the backward walk meets lies on a best path |
| Sixteen.StartOnBestPath | sixteen/src/main.rs:142-151 | the start cell lies on a best path |
| Sixteen.MetStep | sixteen/src/main.rs:138-152 | each best End facing adds exactly the states reached from it, and a dearer facing adds none |
| Sixteen.TilesAreBest | sixteen/src/main.rs:137-154 | the collected cells are exactly the tiles on some best path |
| Sixteen.WalkBack | sixteen/src/main.rs:142-151 | the backward walk visits exactly the states reachable through predecessor lists and adds their cells |
| Sixteen.MinPath2 | sixteen/src/main.rs:89-155 | `min_path2` returns the number of tiles that lie on at least one best path; when no path reaches `E` within `usize::MAX`, every End entry keeps `usize::MAX` with no predecessors and the count is 1, the End tile alone |
| Sixteen.DeadEnd | sixteen/src/main.rs:114-127 | with no path to `E` costing at most `usize::MAX`, no End facing is ever improved or tied, so each keeps cost `usize::MAX` and an empty predecessor list |
| Sixteen.ReachedOnlySeed | sixteen/src/main.rs:142-151 | the backward walk from a state without predecessors visits that state alone |
| Sixteen.DeadEndTiles | sixteen/src/main.rs:134-154 | with the End cell out of reach, all four End facings tie at the minimum and together contribute the single End tile |
| Sixteen.CellUpdateStep | sixteen/src/main.rs:56-59 | part one's update of a cell's cost keeps its search invariant |
| Sixteen.CellSkipStep | sixteen/src/main.rs:49-56 | part one's skipped edges keep its search invariant |
| Sixteen.CellPopStep | sixteen/src/main.rs:45-46 | popping a state starts its expansion under part one's invariant |
| Sixteen.CellRelax | sixteen/src/main.rs:49-60 | one relaxation of part one keeps its invariant and the cost of the expanded cell, and lowers the sum of costs or changes nothing |
| Sixteen.CellExpand | sixteen/src/main.rs:48-61 | expanding a cell relaxes all four edges, lowering the sum of costs or changing nothing |
| Sixteen.SearchCosts | sixteen/src/main.rs:39-62 | the loop ends with the start at 0, walls unreached, and every reached cell relaxed for the facing of its latest improvement |
| Sixteen.MinPath | sixteen/src/main.rs:39-66 | the End cell's cost is between 0 and `usize::MAX`, 0 exactly when it is the start cell, and `usize::MAX` when a wall |
| Sixteen.MazeOf | sixteen/src/main.rs:70 | the maze has its start at the first `S` and its end at the first `E` |
| Sixteen.PartOne | sixteen/src/main.rs:68-72 | part one's score is positive and at most `usize::MAX` |
| Sixteen.PartTwo | sixteen/src/main.rs:157-161 | part two counts the tiles on at least one best path from `S`, facing east, to `E`, and gives 1 when `E` cannot be reached |
| Eighteen.ExtendWalk | eighteen/src/main.rs:42-50 | a walk to a cell extends to any adjacent free cell |
| Eighteen.LowerKeepsRelaxed | eighteen/src/main.rs:48-51 | lowering a count and pushing the cell keeps every cell off the stack relaxed |
| Eighteen.ImproveKeepsSound | eighteen/src/main.rs:47-50 | the lowered count of a neighbour is still the length of a real walk to it |
| Eighteen.ImproveKeepsInv | eighteen/src/main.rs:47-51 | an improvement keeps the search invariant and strictly lowers the sum of counts |
| Eighteen.PopKeepsInv | eighteen/src/main.rs:39-40 | a popped cell is on the grid, reached, and starts its expansion under the invariant |
| Eighteen.CloseKeepsInv | eighteen/src/main.rs:41-53 | once all four edges are relaxed the invariant holds between pops |
| Eighteen.WalkBound | eighteen/src/main.rs:35-56 | when every edge is relaxed, no walk reaches a cell in fewer steps than its count |
| Eighteen.RelaxNeighbour | eighteen/src/main.rs:42-52 | one direction's update keeps the invariant and the popped count, relaxes that edge, and lowers the sum or changes nothing |
| Eighteen.Expand | eighteen/src/main.rs:40-53 | expanding a cell relaxes its four edges and lowers the sum of counts or changes nothing |
| Eighteen.InitialInv | eighteen/src/main.rs:36-38 | the starting counts and stack satisfy the invariant |
| Eighteen.ResultIsShortest | eighteen/src/main.rs:55 | with an empty stack, the corner's count is the length of a shortest walk, or `usize::MAX` when there is none |
| Eighteen.ShortestPath | eighteen/src/main.rs:35-56 | `shortest_path` returns the number of steps of a shortest walk over free cells from the top-left to the bottom-right corner, or `usize::MAX` when none exists |
| Eighteen.CutLoop | eighteen/src/main.rs:35-56 | cutting out a loop leaves a walk to the same cell |
| Eighteen.ShortWalk | eighteen/src/main.rs:35-56 | a reachable cell is reachable by a walk visiting at most as many cells as the grid has |
| Eighteen.UnreachedIffDisconnected | eighteen/src/main.rs:73 | on a grid small enough, the result is `usize::MAX` exactly when no walk reaches the corner |
| Eighteen.ShortestUnique | eighteen/src/main.rs:35-56 | the shortest walk length is unique |
| Eighteen.ByteCornerUnreached | eighteen/src/main.rs:43-45 | a fallen byte on the far corner makes it unreachable |
| Eighteen.SingleCellIsZero | eighteen/src/main.rs:55 | on a one-cell grid the answer is zero |
| Eighteen.MoreBytesNeverShorter | eighteen/src/main.rs:71-75 | more fallen bytes never make the shortest walk shorter |
| Eighteen.MoreBlockedKeepsDisconnected | eighteen/src/main.rs:71-75 | once the corner is cut off it stays cut off under more bytes |
| Eighteen.WithBytes | eighteen/src/main.rs:61-63 | dropping bytes on the grid keeps its shape |
| Eighteen.WithBytesCells | eighteen/src/main.rs:61-63 | a cell holds a byte exactly when it did before or some dropped point names it |
| Eighteen.PrefixMoreBlocked | eighteen/src/main.rs:71-72 | a longer prefix of the bytes blocks at least the cells a shorter one blocks |
| Eighteen.WithBytesStep | eighteen/src/main.rs:72 | one more byte sets exactly its own cell |
| Eighteen.PartOne | eighteen/src/main.rs:58-66 | returns the shortest walk length on the 71 by 71 grid after the first 1024 bytes (fewer if the list is shorter) |
| Eighteen.DisconnectedStays | eighteen/src/main.rs:71-76 | once the corner is cut off, every later prefix cuts it off too |
| Eighteen.FormatInjective | eighteen/src/main.rs:74 | the `x,y` text names one point only |
| Eighteen.CountTellsDisconnected | eighteen/src/main.rs:73 | the shortest path is `usize::MAX` exactly when the prefix cuts the corner off |
| Eighteen.NoneDisconnectedStep | eighteen/src/main.rs:71-76 | a byte that does not cut the corner off extends the run of harmless prefixes |
| Eighteen.PartTwo | eighteen/src/main.rs:68-79 | names the first byte after which the corner is unreachable, and gives no answer exactly when no prefix cuts it off |

## Left out

- Days four and eleven are not part of this model. Day four walks eight directions through a helper that is outside the repository. Day eleven counts digits with floating-point `log`.
- Parsing (the `HasParser` derives and parser combinators), `Display` impls, `print_robots`, the `harness!` macro and the part attributes are left out. Every operation starts from decoded values: digits, cells, rules, robots and programs.
- Fixed-width overflow of `u32`/`u64`/`i64`/`usize` is not modelled; integers are unbounded. Examples are the `u32` products on day three and `2u64.pow` on day seventeen. The exception is seventeen's `2u64.pow(e as u32)`, whose `u32` cast and overflow panic `Divide` does model.
- Hash-map and hash-set iteration order is not modelled. Twelve's `BTreeSet` order is modelled as a row-major scan of the grid.
- Seventeen `part_two` (the search for a register value that prints the program itself) is not modelled. It is an unbounded brute-force search.
- Fourteen `part_two`'s open-ended search for the picture is not modelled. Only one of its trials is (`Fourteen.PartTwoTrial`).
- Five.Reorder: the source's loop has no termination guarantee (cyclic rules), so the model takes a `fuel` bound and reports whether it finished. The result is proved valid only for updates without repeated pages. With a repeated page the swaps can end in an order that still breaks a rule.
- Five.PartTwo: takes the same `fuel` bound and requires it to be positive.
- Five.PartOne: requires every update to be non-empty, because the source indexes the middle element. Five.PartTwo needs no such requirement: an empty update is already valid, so it never reaches the middle-element index.
- Seventeen.PartOne: the run loop takes a `fuel` bound, because a program can loop forever. Running out of fuel is reported as an unfinished run.
- Six.PartOneInner, Six.PartOne, Six.PartTwo: require that the map has a guard and that the guard's walk leaves the grid. Otherwise the source's `loop` never ends.
- Sixteen.PartOne: states only the range of the score, not that it is lowest. `min_path` keeps one cost per cell, so the facing stored with a popped cell can be stale. Sixteen.MinPath nevertheless proves that the start scores 0 and that a walled end is unreached.
- Sixteen.MinPath2, Sixteen.PartTwo: nothing is stated for a maze whose cheapest path to the end costs exactly `usize::MAX`; there `new_score` ties the initial `usize::MAX` and the equal-cost branch records predecessors of a path that the count of best paths (below `usize::MAX`) does not cover.
- Eighteen.PartOne: requires the first 1024 listed points to lie on the 71 by 71 grid, because the source indexes `map[b.y][b.x]`.
- Eighteen.PartTwo: requires every listed point to be on the grid. Its `panic!("not found")` is modelled as `None`.
- Fifteen.PartOne: proved free of panics only for maps that hold one robot. With a second robot ahead, the `assert_eq!` of `attempt_move` fails; the model reports that panic as `None`.
- FifteenWide.PartTwo: three panics of `attempt_move2` are modelled as a panic outcome, and are not proved unreachable: the `assert_eq!` that the cell ahead is empty (fifteen/src/main.rs:158), the out-of-range index when a left half stands in the last column (`x + 1 == width`), and the `x - 1` underflow when a right half stands in column 0. `attempt_move2` is split into its drag and finish stages.
- Seven.IsValidCorrect, Seven.TryCorrect, Seven.ValidTotalCounts, Seven.PartTwoCoversPartOne: proved for positive numbers only. With a zero among the numbers the search can panic (`Seven.NoPanic` states when it cannot), and a choice whose left part evaluates to zero before a Concat is missed, since Concat never undoes to an empty left part.
- Thirteen.MinimumCost, Thirteen.Contribution, Thirteen.TotalCost, Thirteen.PartTwo: require `Divisible`, a machine whose determinant is not zero and whose `b.x` is not zero when the first division is exact. Otherwise one of `minimum_cost`'s two `%` divides by zero and panics; the model gives that panic no outcome.
- Nine.PartOne: returns `None` on a disk that holds no file, where the source's `i -= 1` underflows.
- Twelve.CalculateGroups, Twelve.PartOne, Twelve.PartTwo: the model does not prove that cells sharing a label are connected; it proves they share a character and that adjacent same-character cells share a label. Nor does it prove that the fences along one straight side receive the same id. It does prove that the number of side ids is exactly the number of fences that start a side (`Twelve.CalculateSides`), and that sides never exceed the perimeter.
- Twelve.PartOne, Twelve.PartTwo: also return the labelling (`groups`, `next`), so that their contracts can state it about the regions. The source returns only the total.
