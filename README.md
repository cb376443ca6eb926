# Advent of Code 2022 solvers, modelled in Dafny

This project models the 25 puzzle solvers of an Advent of Code 2022 repository, one Rust program per day (`dayN/src/main.rs`), and proves properties of the model. Each day is a module `DayN` in `dayN.dfy`. Two shared modules stand for the parts of the Rust standard library the solvers lean on:

- `Common`: `Option`, a `Result` whose failure is either a returned `Error` or a `Panic`, and `min`/`max` over sets.
- `Text`: integer parsing with Rust's rules, `str::split`, `strip_prefix` and decimal printing.

The model follows the source's own form:

- Code that updates fields in place becomes a Dafny `class` whose methods say exactly what the new state is. Examples are the crate stacks of day 5, the detector of day 6, the CPU and beam of day 10, the rope of day 9, the maze of day 12, the cave of day 14, the tetris chamber of day 17, the message of day 20, the board of day 22, the elf map of day 23 and the valley of day 24.
- A loop becomes a `method` proved against a pure specification function.
- Recursive code, such as the list values of day 13 or the monkeys of day 21, becomes datatypes and functions.

The lemmas cover the following:

- round trips: SNAFU numbers, day 13 packets, day 22 paths, elements and lines of several inputs;
- invariants a simulation keeps: the rope's knots stay adjacent; mixing is a permutation; the elves never collide; blizzards return after their period;
- the search results of days 12, 16, 19 and 24, related to their step functions.

A `main` that prints is modelled as a `Solve` method returning what it would print. A panic (`unwrap` on `None`, an index out of bounds, `panic!`) is `Err(Panic)`, and an error passed up with `?` is `Err(Error)`.

The day 16 valve search expands every state for 30 minutes in breadth-first steps, with no bound and no distance table.

## Model

| member | source | states |
|---|---|---|
| Day1.Group | day1/src/main.rs:14-25 | The line loop returns exactly `Groups(lines)`: one group sum per run of numeric lines, one more group than there are non-numeric lines, and the group sums add up to the total of all numbers |
| Day1.GroupCount | day1/src/main.rs:17-25 | There is one pushed sum more than there are separating (non-numeric) lines |
| Day1.GroupTotal | day1/src/main.rs:17-25 | The pushed sums add up to the running sum plus every number in the input |
| Day1.SingleGroup | day1/src/main.rs:17-25 | With no separating line every number lands in one group |
| Day1.PeekIsMax | day1/src/main.rs:27-30 | `peek` on the heap gives a group sum that no other group sum exceeds |
| Day1.Top3Meaning | day1/src/main.rs:32-37 | `top_3` is the sum of the first three of the sums sorted in descending order (a permutation of them), or of all of them when there are at most three |
| Day2.ShapeValue | day2/src/main.rs:6-10 | A shape scores 1, 2 or 3 |
| Day2.OutcomeValue | day2/src/main.rs:24-28 | An outcome scores 0, 3 or 6 |
| Day2.ParseShape | day2/src/main.rs:12-21 | Exactly "A".."C" and "X".."Z" parse, A/X to Rock, B/Y to Paper, C/Z to Scissors; anything else panics |
| Day2.ParseOutcome | day2/src/main.rs:30-39 | Exactly "X", "Y", "Z" parse, to Loss, Draw, Win; anything else panics |
| Day2.Play | day2/src/main.rs:48-58 | `play` gives Win exactly when my shape beats theirs, Loss exactly when theirs beats mine, and Draw exactly on equal shapes |
| Day2.PlaySwap | day2/src/main.rs:48-58 | Swapping the players swaps Win and Loss and keeps Draw |
| Day2.FromIntendedOutcome | day2/src/main.rs:60-69 | The chosen shape plays to the wanted outcome against theirs (so the `unreachable!` is never reached) |
| Day2.Score | day2/src/main.rs:91 | A round scores between 1 and 9 and its score is congruent to my shape's value modulo 3 |
| Day2.ParseShapesLine | day2/src/main.rs:80-84 | A part-1 line that parses has two words, the first parsing to their shape and the second to mine |
| Day2.ParseOutcomeLine | day2/src/main.rs:103-106 | A part-2 line that parses has two words; the round keeps their shape and my shape plays to the outcome the second word names |
| Day2.TotalScoreBounds | day2/src/main.rs:89-92 | The folded total lies between one and nine points per round |
| Day3.Priority | day3/src/main.rs:14-20 | 'a'..'z' score 1..26 and 'A'..'Z' score 27..52, each by its offset from 'a' or 'A'; exactly the other characters panic |
| Day3.PriorityInjective | day3/src/main.rs:14-20 | Two items with the same priority are the same item |
| Day3.CommonItems | day3/src/main.rs:54-68 | Every common item occurs in both compartments, there are no more of them than left items, and there are some exactly when a left item is also in the right compartment |
| Day3.Positions | day3/src/main.rs:58-66 | The filtered positions lie in the left compartment and hold items the right compartment also holds |
| Day3.PositionsMeaning | day3/src/main.rs:58-66 | The filtered positions are increasing and include every left position whose item the right compartment holds |
| Day3.CommonItemsAt | day3/src/main.rs:54-68 | The common items are the left items at the filtered positions, in that order |
| Day3.CommonItemsFilter | day3/src/main.rs:54-68 | `common_items` is the left compartment filtered by membership in the right one: the common items are the left items at an increasing list of positions, which holds exactly the positions whose item is in the right compartment |
| Day3.CommonItemsFirst | day3/src/main.rs:100 | The first common item, which part one reads, is the left item at the least position whose item the right compartment holds |
| Day3.CommonItemsCount | day3/src/main.rs:54-68 | The filter keeps every left occurrence of an item that the right compartment holds, with its multiplicity, and none of the others |
| Day3.TagItem | day3/src/main.rs:80-89 | The tag is the first character of the first rucksack that both others contain; the `unwrap` panics exactly when there is none |
| Day3.FirstCommonFrom | day3/src/main.rs:81-86 | The search returns the first index from k on whose character both other rucksacks contain, or the length when there is none |
| Day3.NewRucksack | day3/src/main.rs:44-52 | The rucksack's raw contents are the left compartment followed by the right, so its size is the sum of theirs |
| Day4.ParsePair | day4/src/main.rs:14-23 | A pair that parses comes from a text with two "-"-separated parts, each the u32 decimal of its bound |
| Day4.ParseSections | day4/src/main.rs:45-51 | A line that parses has two ","-separated parts, each parsing to its pair |
| Day4.ParseFormatted | day4/src/main.rs:14-23 | Round trip: the text "a-b,c-d" of u32 bounds parses back to the same two pairs |
| Day4.Symmetric | day4/src/main.rs:30-39 | Both overlap tests give the same answer with the two ranges swapped |
| Day4.FullyOverlapsMeaning | day4/src/main.rs:30-33 | For ranges with start <= end, `fully_overlaps` holds exactly when one range contains every section of the other |
| Day4.OverlapsMeaning | day4/src/main.rs:35-39 | For ranges with start <= end, `overlaps` holds exactly when the ranges share a section |
| Day4.FullyImpliesOverlaps | day4/src/main.rs:30-39 | A full overlap is an overlap |
| Day5.ParseMove | day5/src/main.rs:37-44 | A move that parses comes from the words at positions 1, 3 and 5 of the line, each the decimal of a usize |
| Day5.ParseFormatted | day5/src/main.rs:37-44 | Round trip: "move N from A to B" parses back to the same move |
| Day5.Block | day5/src/main.rs:18-28 | The crates the pops take are the top `times` crates of the source: the rest of the source followed by the block is the source |
| Day5.OneAtATime | day5/src/main.rs:17-22 | After `execute`, the source lost its top `times` crates, the destination gained them in reverse order, and no other stack changed; moving onto the same stack, or moving nothing, leaves every stack as it was. Defined exactly when `execute` does not panic: a positive count needs both stack numbers in range and enough crates, only one when source and destination are the same stack |
| Day5.AllAtOnce | day5/src/main.rs:24-31 | After `execute_all_at_once`, the destination gained the same block in its original order; nothing else changed. Defined exactly when the source does not panic: the destination is always indexed, the source only for a positive count |
| Day5.PopPush | day5/src/main.rs:18-21 | One pop and push of `execute`'s loop takes the state after `k` rounds to the state after `k + 1`, and the pop always finds a crate |
| Day5.Execute | day5/src/main.rs:17-22 | The pop/push loop on the stack array leaves exactly `OneAtATime` of the old stacks |
| Day5.ExecuteAllAtOnce | day5/src/main.rs:24-31 | Popping into a buffer, reversing and appending leaves exactly `AllAtOnce` of the old stacks |
| Day5.TopStep | day5/src/main.rs:18-20 | Popping one more crate extends the reversed block by that crate |
| Day5.PutBack | day5/src/main.rs:29-30 | Appending the reversed buffer to the destination completes `AllAtOnce` |
| Day5.TotalUpdate | day5/src/main.rs:17-31 | Replacing one stack changes the crate total by the difference in its height |
| Day5.CratesPreserved | day5/src/main.rs:17-31 | Both cranes keep the total number of crates whenever they do not panic |
| Day5.SingleCrateAgree | day5/src/main.rs:17-31 | Moving at most one crate, the one-at-a-time crane does not panic where the all-at-once crane does not, and both leave the same stacks |
| Day6.StartDetector.constructor | day6/src/main.rs:10-14 | A new detector has an empty window and has been fed nothing |
| Day6.StartDetector.Detect | day6/src/main.rs:16-37 | After pushing the character the window keeps the newest min(fed, N) characters, newest first, and `detect` returns true exactly when more than N characters have been fed and the last N are pairwise distinct |
| Day6.DistinctReverse | day6/src/main.rs:22-33 | The all-different test gives the same answer on the window in either order |
| Day6.DropOldest | day6/src/main.rs:19-20 | `pop_back` on the N + 1 newest (newest first) leaves the N newest |
| Day6.FindMarker | day6/src/main.rs:40-44 | `find_marker` returns k + 1 where k is the index of the first character that ends N pairwise distinct characters, or the stream length + 1 when none does |
| Day6.Feed | day6/src/main.rs:43 | Feeding character i of the stream fires the detector exactly when the N characters ending at i are distinct |
| Day6.FedMarker | day6/src/main.rs:43 | The detector's firing condition after the prefix up to i is the marker condition at i |
| Day6.FirstMarkerUnique | day6/src/main.rs:43 | The first marker is unique, so `find_marker` has one answer |
| Day6.OrderedDistinct | day6/src/main.rs:22-33 | Checking each unordered pair once decides the all-different test |
| Day6.WindowMarker | day6/src/main.rs:19-33 | A distinct window of N characters ending at i makes the detector fire at i |
| Day6.PacketSample1 | day6/src/main.rs:54 | The index at which `find_marker::<4>` stops on this sample stream is the one `main` asserts, minus one |
| Day6.PacketSample2 | day6/src/main.rs:55 | The index at which `find_marker::<4>` stops on this sample stream is the one `main` asserts, minus one |
| Day6.PacketSample3 | day6/src/main.rs:56 | The index at which `find_marker::<4>` stops on this sample stream is the one `main` asserts, minus one |
| Day6.PacketSample4 | day6/src/main.rs:57 | The index at which `find_marker::<4>` stops on this sample stream is the one `main` asserts, minus one |
| Day6.PacketSample5 | day6/src/main.rs:58 | The index at which `find_marker::<4>` stops on this sample stream is the one `main` asserts, minus one |
| Day6.MessageSample1 | day6/src/main.rs:68 | The index at which `find_marker::<14>` stops on this sample stream is the one `main` asserts, minus one |
| Day6.MessageSample2 | day6/src/main.rs:69 | The index at which `find_marker::<14>` stops on this sample stream is the one `main` asserts, minus one |
| Day6.MessageSample3 | day6/src/main.rs:70 | The index at which `find_marker::<14>` stops on this sample stream is the one `main` asserts, minus one |
| Day6.MessageSample4 | day6/src/main.rs:71 | The index at which `find_marker::<14>` stops on this sample stream is the one `main` asserts, minus one |
| Day6.MessageSample5 | day6/src/main.rs:72 | The index at which `find_marker::<14>` stops on this sample stream is the one `main` asserts, minus one |
| Day6.Examples | day6/src/main.rs:53-72 | `find_marker` returns 7, 5, 6, 10, 11 for a window of 4 and 19, 23, 23, 29, 26 for a window of 14 on the five sample streams, as `main` asserts |
| Day7.ParseLine | day7/src/main.rs:36-51 | For every line, in the source's order of tests: a "$ cd" line gives Cd of its third word and panics without one; a "$ ls" line gives Ls; a "dir" line gives DirLine of its second word and panics without one; any other line is an error exactly when its first word is not a usize, panics when it has no second word, and otherwise gives FileLine of that size and the second word |
| Day7.ParseFormattedCd | day7/src/main.rs:37-39 | Round trip: "$ cd NAME" parses back to Cd(NAME) for a name without spaces |
| Day7.ParseFormattedDir | day7/src/main.rs:42-44 | Round trip: "dir NAME" parses back to DirLine(NAME) |
| Day7.ParseFormattedFile | day7/src/main.rs:45-50 | Round trip: "SIZE NAME" parses back to FileLine(SIZE, NAME) for a size that fits a usize |
| Day7.ParseFormattedLine | day7/src/main.rs:36-51 | Round trip: the terminal text of every line kind parses back to the same line |
| Day7.ToDir | day7/src/main.rs:57-67 | Exactly `dir` lines convert, to an empty directory of that name |
| Day7.ToFile | day7/src/main.rs:73-83 | Exactly file lines convert, keeping name and size |
| Day7.SizeIsFileTotal | day7/src/main.rs:86-99 | `Dir::size` is the total size of every file in the directory's subtree |
| Day7.SubSizesIsFileTotal | day7/src/main.rs:87-91 | The summed subdirectory sizes are the total size of every file below them |
| Day7.FileTotalAppend | day7/src/main.rs:92-96 | File totals add over concatenation |
| Day7.AllDirsCount | day7/src/main.rs:101-111 | `all_dirs` lists every directory of the tree except the root, once each by count |
| Day7.SubAllDirsCount | day7/src/main.rs:102-108 | The subdirectories plus their own listings account for every directory below |
| Day7.PathInAllDirs | day7/src/main.rs:101-111 | Every directory reached by a non-empty path of subdirectory steps is in `all_dirs` |
| Day7.AllDirsArePaths | day7/src/main.rs:101-111 | Every directory in `all_dirs` is reached by a non-empty path of subdirectory steps |
| Day7.SubAllDirsHas | day7/src/main.rs:104-108 | The listing of one subdirectory is part of the listing of them all |
| Day7.SubAllDirsFrom | day7/src/main.rs:104-108 | Every directory of the combined listing comes from one subdirectory's listing |
| Day7.SizeAlongPath | day7/src/main.rs:86-99 | A directory is at least as large as any directory below it |
| Day7.SubSizesBound | day7/src/main.rs:87-91 | A subdirectory is no larger than all the subdirectories together |
| Day7.SizeOfListed | day7/src/main.rs:101-111 | No directory listed by `all_dirs` is larger than the root |
| Day7.UpdateKeepsPath | day7/src/main.rs:135-144 | Adding an entry to the current directory keeps every existing path valid |
| Day7.UpdateGrows | day7/src/main.rs:135-144 | Adding a file grows the tree's size by the file's size; adding a directory adds one directory and no size |
| Day7.SubSizesUpdate | day7/src/main.rs:135-144 | Replacing one subdirectory changes the summed sizes and counts by its difference |
| Day7.SubSizesAppend | day7/src/main.rs:138 | Pushing a subdirectory adds its size and its directory count |
| Day7.FindSubdir | day7/src/main.rs:158-164 | The found index is the first subdirectory with that name; none is found exactly when no subdirectory has it |
| Day7.ParentPath | day7/src/main.rs:148-156 | `cd ..` from a non-root directory leads to a valid directory |
| Day7.ChildPath | day7/src/main.rs:157-166 | `cd name` into an existing subdirectory leads to that subdirectory |
| Day7.Build | day7/src/main.rs:130-168 | The line loop builds exactly the tree `Replay` describes, with `cd ..` at the root and `cd` to a missing name as panics |
| Day7.ReplayAccounts | day7/src/main.rs:132-168 | A replay that succeeds ends with a root whose size is the total of the file lines and which holds one directory per `dir` line |
| Day7.SmallTotalMeaning | day7/src/main.rs:170-175 | Every listed directory of at most 100000 contributes at least its size, none larger contributes, and the sum is bounded by 100000 per directory |
| Day7.SmallestAtLeast | day7/src/main.rs:182-193 | The answer is a listed size of at least the bound and no larger than any other such size; there is none exactly when every size is below the bound |
| Day7.ToDelete | day7/src/main.rs:179-194 | The directory to delete frees at least the used space beyond 40000000 and is the smallest that does; the usize subtraction and the `unwrap` panic exactly when the used space is below 40000000 or no directory is large enough |
| Day8.ShorterPrefixMeaning | day8/src/main.rs:30 | `take_while(...).count()` counts the leading trees shorter than the tree, and the first tree not counted is at least as tall |
| Day8.ShorterSuffixReverse | day8/src/main.rs:26 | The `rev().take_while` count and viewing distance equal those of the reversed line |
| Day8.ReverseInit | day8/src/main.rs:26 | Dropping a line's last tree drops the first of its reverse |
| Day8.ViewDistanceMeaning | day8/src/main.rs:26-41 | A viewing distance is between 1 and the line's length, counts the shorter trees up to and including the first blocking one, and is the whole line when no tree blocks |
| Day8.TallestMeaning | day8/src/main.rs:50-58 | `last()` of the sorted line is a tree of the line no shorter than any other |
| Day8.TallestAllShorter | day8/src/main.rs:55-58 | Being taller than the tallest is being taller than every tree |
| Day8.VisibleMeaning | day8/src/main.rs:50-62 | An interior tree counts as visible exactly when it is strictly taller than every tree in at least one of the four directions |
| Day8.Cell | day8/src/main.rs:17-62 | The inner loop body computes the tree's scenic score and its visibility test |
| Day8.ScanCell | day8/src/main.rs:43-62 | One tree adds one to the count exactly when visible and raises the best score to its own |
| Day8.RowStep | day8/src/main.rs:16 | Scanning one more column of a row adds that tree's visibility and score |
| Day8.UpToStep | day8/src/main.rs:15 | Scanning one more row adds that row's visible count and best score |
| Day8.SurveyRow | day8/src/main.rs:16-63 | The inner loop adds the row's visible interior trees to the count and raises the best score to the row's best |
| Day8.Survey | day8/src/main.rs:9-64 | The nested loops return the border count 2 * width + 2 * height - 4 plus every visible interior tree, and the best scenic score of the interior trees |
| Day8.BestIsUpperBound | day8/src/main.rs:43-47 | The best scenic score is at least the score of every interior tree scanned |
| Day8.BestIsAttained | day8/src/main.rs:43-47 | A non-zero best scenic score is the score of some interior tree |
| Day8.BestInRowIsUpperBound | day8/src/main.rs:43-47 | Within a row, the best score bounds every scanned tree's score |
| Day8.BestInRowIsAttained | day8/src/main.rs:43-47 | Within a row, a non-zero best score is some tree's score |
| Day9.ParseDirection | day9/src/main.rs:109-120 | Only "U", "D", "L" and "R" parse; anything else is an error |
| Day9.Move | day9/src/main.rs:38-45 | A move changes exactly one coordinate by one unit, in the direction's sense |
| Day9.StepToward | day9/src/main.rs:24-34 | One chase step moves a differing coordinate one unit closer to the target and leaves an equal one alone |
| Day9.ApproachGap | day9/src/main.rs:24-34 | After k steps the gap has shrunk by k (down to zero) and the coordinate never crosses the target |
| Day9.ApproachStep | day9/src/main.rs:23-35 | Each loop iteration is one more step of the closed-form approach |
| Day9.CloseAfter | day9/src/main.rs:23 | The loop condition `close_from` first holds after exactly max(dx, dy) - 1 steps, which bounds the loop |
| Day9.Chase | day9/src/main.rs:22-36 | `chase` ends touching the target at the closed-form position |
| Day9.ChasedTouches | day9/src/main.rs:22-36 | A chase ends touching the target, and a knot already touching does not move |
| Day9.ChasedBetween | day9/src/main.rs:24-34 | Each coordinate ends between its start and the target's, never past it |
| Day9.Follow | day9/src/main.rs:68-76 | Following keeps the number of knots |
| Day9.FollowAt | day9/src/main.rs:68-76 | Knot i of the followed rope is knot i chased toward its already moved predecessor |
| Day9.FollowTouches | day9/src/main.rs:65-77 | After following, every knot touches its predecessor |
| Day9.Bridge.constructor | day9/src/main.rs:58-63 | A new rope has the head and every knot at the origin |
| Day9.Bridge.MoveHead | day9/src/main.rs:65-77 | `move_head` moves the head one cell and updates the knot array in place so that each knot has chased its predecessor, leaving the rope taut |
| Day9.Bridge.Tail | day9/src/main.rs:96-98 | The tail is a knot of the rope |
| Day10.ParseInstruction | day10/src/main.rs:8-19 | "noop" parses; "addx n" parses exactly when n is a valid i32; "addx" without an operand panics; anything else is an error |
| Day10.TraceLength | day10/src/main.rs:46-62 | A noop takes one cycle and an addx two |
| Day10.TraceSplit | day10/src/main.rs:51-56 | Running the program in two pieces: the second piece starts from the register the first leaves |
| Day10.AddSumStep | day10/src/main.rs:51-58 | Finishing one more instruction adds its operand to the register and its cycles to the count |
| Day10.AddSumAppend | day10/src/main.rs:51-58 | Operand sums and cycle counts add up over concatenated programs |
| Day10.TraceAt | day10/src/main.rs:44-56 | During both cycles of instruction pc, `x` is 1 plus the operands of the addx instructions before it |
| Day10.Processor.constructor | day10/src/main.rs:31-40 | A new processor is at cycle 0, pc 0, with x = temp_x = 1 and no addx pending |
| Day10.Processor.Step | day10/src/main.rs:42-63 | Each step advances the cycle and publishes the last register value; it returns None exactly when the program has ended; an addx takes two steps and then adds its operand; the `x` seen is the trace's value for that cycle |
| Day10.PixelsMeaning | day10/src/main.rs:77-104 | Pixel i is lit exactly when the sprite centred on x during cycle i + 1 covers column i mod 40 |
| Day10.Beam.constructor | day10/src/main.rs:66-69 | The beam starts at column 0 |
| Day10.Beam.Step | day10/src/main.rs:72-75 | The beam advances one column modulo 40 and reports the wrap exactly when leaving column 39 |
| Day10.ColumnStep | day10/src/main.rs:73 | Advancing the beam with wrap-around keeps it at the cycle's column modulo 40 |
| Day10.OutputStep | day10/src/main.rs:95-108 | One more cycle adds its signal strength when it is traced, and its pixel |
| Day10.Run | day10/src/main.rs:88-109 | `main`'s loop returns the sum of cycle * x over cycles 20, 60, ..., 220 and one pixel per cycle of the program's trace |
| Day11.ParseOperand | day11/src/main.rs:13-25 | "old" parses to Old; anything else must be a u32 and parses to that number, or is an error |
| Day11.Get | day11/src/main.rs:31-36 | `get` returns the old worry level for Old and the literal otherwise |
| Day11.ParseOperation | day11/src/main.rs:46-61 | "new = a op b" parses to operands a and b with op "+" or "*"; any other operator is an error |
| Day11.Execute | day11/src/main.rs:64-71 | `execute` adds the two operands when `plus` is set and multiplies them otherwise |
| Day11.Throw | day11/src/main.rs:139-145 | An inspected item carries op(item) / 3 and goes to `send_if_true` exactly when that value is divisible by `test_div_by`; the remainder by a zero `test_div_by` panics |
| Day11.ExecuteMonkey | day11/src/main.rs:136-151 | `Monkey::execute` returns one transfer per held item, in order, and leaves the monkey without items; it panics exactly when the monkey holds an item and its divisor is zero |
| Day11.Rules | day11/src/main.rs:75-81 | Stripping items keeps one entry per monkey |
| Day11.RulesKeepValid | day11/src/main.rs:141-173 | Monkeys with the same operations, divisors and targets are equally free of panics |
| Day11.Transfers | day11/src/main.rs:138-146 | A turn's transfers are one `Throw` per held item, in order, and panic exactly when an item meets a zero divisor |
| Day11.Deliver | day11/src/main.rs:172-174 | Delivering panics exactly when some transfer's target is past the last monkey, and otherwise keeps the number of monkeys |
| Day11.Turn | day11/src/main.rs:169-174 | A turn that does not panic keeps the number of monkeys |
| Day11.TurnPanics | day11/src/main.rs:139-173 | A turn panics exactly when the monkey holds an item and either its divisor is zero or one of its items is sent past the last monkey |
| Day11.ValidTurn | day11/src/main.rs:139-173 | Monkeys with nonzero divisors and existing targets never panic in a turn, and stay so |
| Day11.DeliverRules | day11/src/main.rs:172-174 | Delivering changes only items, and adds exactly one item per transfer |
| Day11.TurnRules | day11/src/main.rs:169-174 | A turn that does not panic keeps every monkey's rules and the total number of items |
| Day11.ItemCountUpdate | day11/src/main.rs:148-173 | Replacing one monkey's items changes the total by the difference in their numbers |
| Day11.RoundFrom | day11/src/main.rs:168-175 | The rest of a round panics with its first panicking turn, and otherwise keeps the number of monkeys and counts |
| Day11.RoundKeeps | day11/src/main.rs:168-175 | A round that does not panic keeps the monkeys' rules and the total number of items |
| Day11.ValidRound | day11/src/main.rs:168-175 | Monkeys with nonzero divisors and existing targets finish a round without a panic, and stay so |
| Day11.RoundCounts | day11/src/main.rs:168-169 | The turns from monkey `i` on leave the counts of earlier monkeys alone, add to monkey `i`'s count exactly the items it holds at its turn, and never lower a later count |
| Day11.DeliverAll | day11/src/main.rs:172-174 | The transfer loop pushes every item, in order, onto its target in the array, and panics exactly when `Deliver` does |
| Day11.PlayTurn | day11/src/main.rs:169-174 | Monkey i's count grows by the items it holds; the turn panics exactly when `Turn` does, and otherwise the array becomes the turn's result |
| Day11.PlayRound | day11/src/main.rs:168-175 | Every monkey takes its turn in order; the loop panics exactly when the round function does, and otherwise leaves its result |
| Day11.BusinessMeaning | day11/src/main.rs:184-187 | The business is the product of the first two counts sorted in descending order |
| Day11.Rounds | day11/src/main.rs:165-180 | Further rounds panic with the first panicking round, and otherwise keep the number of monkeys and counts |
| Day11.RoundsKeep | day11/src/main.rs:165-180 | Rounds that do not panic keep the monkeys' rules and the total number of items |
| Day11.ValidRounds | day11/src/main.rs:165-180 | Monkeys with nonzero divisors and existing targets play any number of rounds without a panic |
| Day11.PlayRounds | day11/src/main.rs:165-180 | n rounds panic exactly when the rounds function does, and otherwise follow it |
| Day11.Simulate | day11/src/main.rs:158-187 | Twenty rounds from zero counts, then the business; the program panics exactly when a round does or there are fewer than two monkeys, and with nonzero divisors and existing targets only the latter; the rounds keep the total number of items |
| Day12.ToTerrain | day12/src/main.rs:15-24 | 'a'..'z', 'S' and 'E' convert, with heights at most 25; any other character panics |
| Day12.HeightOrder | day12/src/main.rs:20-34 | Letters climb one height per letter; 'S' has the height of 'a' and 'E' that of 'z' |
| Day12.ParseRow | day12/src/main.rs:102 | A line converts square by square, and panics exactly when some character does not convert |
| Day12.ParseGrid | day12/src/main.rs:100-103 | The field converts line by line, and panics exactly when some line does |
| Day12.Neighbor | day12/src/main.rs:52-75 | Moving in a direction reaches an adjacent square |
| Day12.NeighborInjective | day12/src/main.rs:52-75 | Different directions lead to different squares |
| Day12.OrderCovers | day12/src/main.rs:191 | The four directions `step` tries reach exactly the adjacent squares |
| Day12.Zeros | day12/src/main.rs:123 | The initial distances are all zero, height by width |
| Day12.Enter | day12/src/main.rs:192-210 | Trying one direction keeps the grid's shape |
| Day12.EnterAll | day12/src/main.rs:191-213 | Trying several directions keeps the grid's shape |
| Day12.StepSearch | day12/src/main.rs:186-215 | A step on a non-empty queue keeps the grid's shape |
| Day12.AdmittedLength | day12/src/main.rs:191-213 | Each direction admits at most one square |
| Day12.AdmittedSound | day12/src/main.rs:193-209 | Every admitted square is a neighbour along one of the directions that the climbing rule admits |
| Day12.AdmittedComplete | day12/src/main.rs:193-209 | Every neighbour the climbing rule admits is admitted |
| Day12.AdmittedDistinct | day12/src/main.rs:191-209 | With distinct directions no square is admitted twice |
| Day12.NotAdmittedBefore | day12/src/main.rs:191-209 | The earlier directions admit neither the popped square nor the last direction's neighbour |
| Day12.EnterCell | day12/src/main.rs:193-209 | One direction changes only the square it leads to, and only when the rule admits it: the square becomes Visited at its height with distance d + 1 |
| Day12.EnterAllCell | day12/src/main.rs:191-213 | Trying distinct directions in turn changes each square as if every admitted neighbour, judged on the grid before, were entered at once |
| Day12.AdmitsAfter | day12/src/main.rs:195-203 | Earlier directions leave the rule's verdict on the next neighbour unchanged |
| Day12.EnterAllQueue | day12/src/main.rs:199-207 | The admitted neighbours join the back of the queue in order |
| Day12.EnterAllNext | day12/src/main.rs:191 | Trying one more direction enters one more neighbour |
| Day12.AdmittedByOrder | day12/src/main.rs:191-209 | `step` admits at most four squares, each once, and exactly the adjacent squares the rule admits |
| Day12.StepCell | day12/src/main.rs:186-215 | After a step, an adjacent square the rule admits is Visited at its height with the popped square's distance plus one; every other square keeps its terrain and distance |
| Day12.StepMeaning | day12/src/main.rs:186-215 | `step` pops the front square, appends the admitted neighbours to the back of the queue, and changes no other square |
| Day12.StepQueue | day12/src/main.rs:187-209 | The queued squares left behind keep their terrain and distance; the added ones are no longer enterable and carry the popped distance plus one |
| Day12.StepKeepsFrontier | day12/src/main.rs:189-208 | A step keeps the queue free of repeats and of enterable squares, so no square is queued twice |
| Day12.StepKeepsLayered | day12/src/main.rs:189-208 | A step keeps the distances along the queue non-decreasing and within one of each other, as breadth-first search does |
| Day12.CountRowUpdate | day12/src/main.rs:200-208 | Overwriting a square changes a line's enterable count by its change in enterability |
| Day12.CountUpdate | day12/src/main.rs:150-152 | Overwriting a square changes the grid's enterable count by its change in enterability |
| Day12.EnterAllMeasure | day12/src/main.rs:196-208 | Entering a square moves one unit from the enterable squares to the queue |
| Day12.StepMeasure | day12/src/main.rs:186-215 | Each step on a non-empty queue uses up one unit of enterable-plus-queued squares, so `while !maze.step() {}` terminates |
| Day12.Settle | day12/src/main.rs:258-270 | Stepping until done ends with an empty queue and the grid's shape |
| Day12.Iterate | day12/src/main.rs:258-270 | Any number of `step` calls keeps the grid's shape |
| Day12.SettleKeeps | day12/src/main.rs:258-270 | After any number of steps the queue holds no square twice, none it could still enter, and distances that never decrease and grow by at most one along it |
| Day12.SettleReached | day12/src/main.rs:258-270 | The settled search is the state after some number `k` of steps, and every state before it still had a non-empty queue |
| Day12.LastInRowMeaning | day12/src/main.rs:106-112 | The inner scan keeps the last square of the line holding the terrain, or none |
| Day12.LastInGridMeaning | day12/src/main.rs:97-113 | The scan keeps the last start or end square in reading order, or (0, 0) when there is none |
| Day12.LocateInRow | day12/src/main.rs:106-112 | The inner scan loop returns the line's last start and end squares, or the ones it was given |
| Day12.Locate | day12/src/main.rs:105-113 | The scan loop returns the last start and end squares in reading order |
| Day12.Maze.constructor | day12/src/main.rs:96-129 | A new maze holds the grid, zero distances and a queue holding only the start square, which is also the cursor; `end` is the end square |
| Day12.Maze.GetTile | day12/src/main.rs:133-139 | `get_tile` returns None exactly outside the grid, and the square otherwise |
| Day12.Maze.GetDistance | day12/src/main.rs:163-169 | `get_distance` returns None exactly outside the grid, and the distance otherwise |
| Day12.Maze.Visit | day12/src/main.rs:192-210 | One direction of `step` updates the maze in place as trying that direction does |
| Day12.Maze.Step | day12/src/main.rs:186-219 | `step` returns true exactly when the queue was empty, changing nothing then; otherwise it performs one breadth-first step |
| Day12.Maze.Run | day12/src/main.rs:258 | `while !maze.step() {}` leaves the maze settled |
| Day12.Maze.StartFromEnd | day12/src/main.rs:265-268 | The reverse search drops the last queued square, queues the end square and reverses the climbing rule |
| Day12.InitialFrontier | day12/src/main.rs:118-119 | The initial one-square queue meets both queue invariants when the start (or end) square is present |
| Day13.TakeCount | day13/src/main.rs:19-35 | The scan stops at a comma, or at the end of the text |
| Day13.Parse | day13/src/main.rs:14-47 | Parsed integers fit in a u32; the result is a list exactly when the text starts with '['; a '[' without a closing ']' panics |
| Day13.ParseItems | day13/src/main.rs:18-41 | Every parsed item fits in a u32 |
| Day13.FindComma | day13/src/main.rs:20-35 | The depth-tracking `take_while` loop returns the index of the first comma at depth 0, or the end |
| Day13.ItemStep | day13/src/main.rs:37-40 | One turn of the item loop pushes the parsed item and continues after the comma |
| Day13.ParseElement | day13/src/main.rs:14-47 | `from_str` as a loop computes the recursive parse |
| Day13.ParseList | day13/src/main.rs:18-41 | The item loop computes the recursive item parse |
| Day13.Show | day13/src/main.rs:50-65 | The printed text is non-empty and starts with '[' exactly for a list |
| Day13.SkipDigits | day13/src/main.rs:23-33 | The comma scan walks over digits at an unchanged depth |
| Day13.SkipShow | day13/src/main.rs:23-33 | The comma scan walks over a printed element and ends at the depth it started from |
| Day13.SkipItems | day13/src/main.rs:23-58 | The comma scan walks over printed items, whose commas sit at a positive depth |
| Day13.ScanFirst | day13/src/main.rs:19-35 | Over a printed item followed by a comma, the scan stops at that comma |
| Day13.FirstShown | day13/src/main.rs:37-39 | The scan over printed items splits off exactly the first item's text and leaves the rest of the items' text |
| Day13.ParseShowItems | day13/src/main.rs:18-58 | Parsing printed items, each followed by a comma, gives the items back |
| Day13.ParseShow | day13/src/main.rs:14-65 | Parsing the `Debug` text of an element whose integers fit in a u32 gives the element back |
| Day13.CompareInts | day13/src/main.rs:70 | Two integers compare by value |
| Day13.SizeBelow | day13/src/main.rs:73 | An item is smaller than its list, so the recursion terminates |
| Day13.PartialCmp | day13/src/main.rs:67-98 | `partial_cmp` always returns Some, so the order is total |
| Day13.CompareFrom | day13/src/main.rs:72-86 | The item loop always returns Some |
| Day13.CompareFromMeaning | day13/src/main.rs:72-86 | From index i: the first item comparison that is not Equal decides; if all are Equal the lengths decide |
| Day13.ListsCompare | day13/src/main.rs:71-87 | Two lists compare item by item, the first non-Equal comparison deciding, and otherwise the shorter list is Less |
| Day13.MixedCompare | day13/src/main.rs:88-95 | An integer compared with a list, in either position, is compared as the one-item list holding it |
| Day13.CompareSwap | day13/src/main.rs:67-98 | Swapping the arguments swaps Less and Greater and keeps Equal |
| Day13.CompareFromSwap | day13/src/main.rs:72-86 | The item loop on swapped lists gives the flipped result |
| Day13.CompareSelf | day13/src/main.rs:67-98 | Every element compares Equal with itself |
| Day13.CompareFromSelf | day13/src/main.rs:72-86 | The item loop on a list against itself gives Equal |
| Day13.EqualYetDistinct | day13/src/main.rs:68-97 | `partial_cmp` calls an integer and the one-item list holding it Equal, while the derived `==` tells them apart |
| Day13.InOrder | day13/src/main.rs:111 | `left <= right` holds exactly when `partial_cmp` does not answer Greater; every element is in order with itself, and a pair out of order compares Less once swapped |
| Day13.InOrderEither | day13/src/main.rs:111 | Of a pair and its swap, at least one passes the `left <= right` test |
| Day13.WellOrderedSum | day13/src/main.rs:107-114 | Part one over the first n pairs (n = half the elements, as `array_chunks` drops a leftover): at most 1 + ... + n; at least n when the last pair is in order, and at most 1 + ... + (n - 1) when it is not |
| Day13.AllInOrderSum | day13/src/main.rs:107-114 | When every pair passes `left <= right` the sum is 1 + 2 + ... + n |
| Day13.EqualPairsSum | day13/src/main.rs:107-114 | Pairs of equal elements all pass, so their sum is 1 + 2 + ... + n |
| Day14.Moves | day14/src/main.rs:21-42 | Down, down-left and down-right reach the three cells of the next row touching the grain, left to right |
| Day14.ParsePosition | day14/src/main.rs:9-19 | A parsed position has coordinates that fit in a usize |
| Day14.ParsePrinted | day14/src/main.rs:9-19 | Parsing "x,y" printed from a position gives the position back |
| Day14.ParseCorners | day14/src/main.rs:69 | The corners after the first parse one for one; a bad one panics |
| Day14.ParsePath | day14/src/main.rs:66-69 | A parsed line has at least one corner |
| Day14.ParseAll | day14/src/main.rs:65-69 | Every line parses, one path per line |
| Day14.ParseAllFails | day14/src/main.rs:65-69 | A failure in the first lines is the failure of the whole scan |
| Day14.OnPathMeaning | day14/src/main.rs:69-90 | A cell is drawn by a line exactly when it lies on the segment between two consecutive corners |
| Day14.PathBottomMeaning | day14/src/main.rs:87 | A line's bottom bounds the y of every corner after the first and is one of them, or 0 |
| Day14.BottomMeaning | day14/src/main.rs:63-87 | `bottom` bounds the y of every corner except each line's first, and is one of them unless it is 0 |
| Day14.FirstCornerIgnored | day14/src/main.rs:67-87 | A line's first corner draws rock but does not count toward `bottom`: rock can lie below `bottom` |
| Day14.DrawSegment | day14/src/main.rs:70-85 | Drawing a segment marks exactly its cells as Rock and keeps every other cell |
| Day14.DrawColumn | day14/src/main.rs:70-77 | The vertical loop marks column x from the lower to the higher y, both included, and nothing else |
| Day14.DrawRow | day14/src/main.rs:78-85 | The horizontal loop marks row y from the lower to the higher x, both included, and nothing else |
| Day14.DrawPath | day14/src/main.rs:66-90 | A line's loop marks exactly the cells on its segments and raises `bottom` to every corner after the first |
| Day14.AddPath | day14/src/main.rs:65-91 | One more line adds its cells to the rock and its corners to `bottom` |
| Day14.FromLines | day14/src/main.rs:58-95 | `Cave::from_str` fails with the first line's failure, or marks exactly the cells on the paths as Rock with `bottom` as above |
| Day14.Landing | day14/src/main.rs:98-119 | A grain rests at most one row below `bottom` and never above where it started |
| Day14.LandingMeaning | day14/src/main.rs:101-119 | A grain lands in Air; at or above `bottom` all three cells below it are taken; otherwise it lies one row below `bottom` |
| Day14.Cave.constructor | day14/src/main.rs:93 | A cave holds the scanned cells and `bottom` |
| Day14.Cave.SandStep | day14/src/main.rs:98-122 | `sand_step` stores Sand where the grain from (500, 0) lands, changes nothing else, and says whether that is the source |
| Day14.SandStepAddsOne | day14/src/main.rs:98-122 | While the source is Air, a step adds exactly one Sand cell, at a cell that was Air |
| Day14.PathFloorBounds | day14/src/main.rs:66-90 | Every cell a line draws lies at or above the largest y of its corners, first included, which is at least the line's written bottom |
| Day14.FloorBoundsRocks | day14/src/main.rs:63-91 | With every corner counted, no rock lies below `bottom`, and that bottom is never above the written one |
| Day14.Down | day14/src/main.rs:22-27 | `down` gives the cell directly below: same column, next row |
| Day14.DownLeft | day14/src/main.rs:29-34 | `down_left` gives the cell one column to the left in the next row; the usize subtraction needs a column of at least 1 |
| Day14.DownRight | day14/src/main.rs:36-41 | `down_right` gives the cell one column to the right in the next row |
| Day15.DistanceIsMetric | day15/src/main.rs:10-12 | Manhattan distance is symmetric, zero exactly on equal points, and obeys the triangle inequality |
| Day15.ParseCoordinate | day15/src/main.rs:53-65 | A parsed coordinate carries its "x=" or "y=" prefix and fits in an isize |
| Day15.ParseSensor | day15/src/main.rs:43-72 | A sensor's radius is the distance to its closest beacon |
| Day15.SensesOwnBeacon | day15/src/main.rs:22-24 | Every parsed sensor senses its own beacon |
| Day15.ParseAll | day15/src/main.rs:42-92 | Every line gives one sensor |
| Day15.ParseAllNext | day15/src/main.rs:42-79 | Parsing one more line fails with its failure or appends its sensor |
| Day15.ParseAllFails | day15/src/main.rs:53-66 | A failure in the first lines is the failure of the whole input |
| Day15.CornersPush | day15/src/main.rs:80-91 | One more sensor widens each corner of the box to its reach |
| Day15.CornersEnclose | day15/src/main.rs:80-91 | The box holds the origin and every point that any sensor senses |
| Day15.OriginInside | day15/src/main.rs:39-40 | The box starts at (0, 0) and keeps it inside |
| Day15.Widen | day15/src/main.rs:80-91 | Each corner coordinate moves out to the sensor's reach when that lies beyond it |
| Day15.FromLines | day15/src/main.rs:37-99 | `Field::from_str` fails with the first failure, or holds every sensor in order and the box around their reach |
| Day15.IsSensedMeaning | day15/src/main.rs:103-107 | `is_sensed` holds exactly when some sensor is within its radius of the target |
| Day15.JustOutside | day15/src/main.rs:112-117 | On a row the sensor reaches, both candidates lie at distance radius + 1, just outside it |
| Day15.SearchRow | day15/src/main.rs:111-125 | A row yields an accepted candidate beside one of the sensors, or none of its candidates is accepted |
| Day15.BorderSearch | day15/src/main.rs:109-128 | A returned position is unsensed, with 0 < x < limit and 0 <= y <= limit, and no earlier row had an accepted candidate; None means no row did |
| Day15.FoundIsUnsensed | day15/src/main.rs:119-123 | A returned position is beyond every sensor's radius |
| Day15.Distance | day15/src/main.rs:10-12 | The Manhattan distance is zero exactly between equal points, and along a row or a column it is the difference of the other coordinate |
| Day15.ParsePosition | day15/src/main.rs:47-66 | A missing lead text panics; a parsed position comes from the "x=" and "y=" coordinates of the first two ", "-separated parts after it |
| Day16.IndexOf | day16/src/main.rs:66 | `position` finds the first valve with the name, or reports that none has it |
| Day16.Initial | day16/src/main.rs:68-72 | The start state has every valve closed, nothing released and the walker in room AA |
| Day16.NothingOpened | day16/src/main.rs:80-86 | With every valve closed nothing flows |
| Day16.OpeningAddsRate | day16/src/main.rs:80-99 | Opening a closed valve adds exactly its rate to the flow |
| Day16.MoreOpenedFlowsMore | day16/src/main.rs:80-86 | More open valves never flow less |
| Day16.Successors | day16/src/main.rs:77-110 | Every successor is a state of the same cave |
| Day16.SuccessorsAccrue | day16/src/main.rs:80-86 | Every successor first gains the flow of the valves open in its parent |
| Day16.AllOpenedStays | day16/src/main.rs:88-92 | With every valve open, the only successor is the state itself with the minute's release added |
| Day16.OpenSuccessor | day16/src/main.rs:94-107 | There is one open-valve successor exactly when the current valve is closed, pushed before the moves, differing only in that valve, plus one successor per tunnel |
| Day16.MoveSuccessors | day16/src/main.rs:101-107 | Each tunnel gives a successor differing only in its room, and every other successor is the open-valve one |
| Day16.SuccessorsGrow | day16/src/main.rs:80-107 | Opened valves stay open, the release never falls, and there are at most one plus the tunnel count successors |
| Day16.Step | day16/src/main.rs:77-112 | Expanding every state gives states of the same cave |
| Day16.Reachable | day16/src/main.rs:68-124 | The states after any number of minutes belong to the cave |
| Day16.StaysEmpty | day16/src/main.rs:74-124 | Once no state is left, none comes back |
| Day16.MaxReleased | day16/src/main.rs:115-126 | `max()` is None exactly on no states, and otherwise the largest release among them |
| Day16.NextMinute | day16/src/main.rs:77-115 | One minute expands every state into its successors, and the maximum is None exactly when none is left |
| Day16.Explore | day16/src/main.rs:74-128 | After the minutes, the largest release over the states left; a minute that leaves none panics |
| Day16.FindBestRoute | day16/src/main.rs:65-129 | Thirty minutes from valve AA, then the largest release; a missing AA panics |
| Day17.ShapesCycle | day17/src/main.rs:45-56 | The shapes form one cycle of length five |
| Day17.ShapeCycle.constructor | day17/src/main.rs:32-40 | The shape sequence starts at the horizontal bar |
| Day17.ShapeCycle.Next | day17/src/main.rs:45-56 | `next` returns the current shape and moves on to the following one |
| Day17.Points | day17/src/main.rs:60-68 | A shape has four or five cells, all within a 4 by 4 box from its lower-left corner, the first in its left column and a cell on its bottom row |
| Day17.Offset | day17/src/main.rs:96-103 | A jet moves one column left or right and no row |
| Day17.ParseWind | day17/src/main.rs:105-113 | '<' is Left and '>' is Right; any other character panics |
| Day17.ParseWinds | day17/src/main.rs:176 | The pattern converts character by character, and panics exactly when some character does not convert |
| Day17.Wind.constructor | day17/src/main.rs:121-126 | The jet index starts at 0 |
| Day17.Wind.Next | day17/src/main.rs:128-132 | `next` returns the current jet and advances the index modulo the pattern length |
| Day17.NextIndex | day17/src/main.rs:130 | The modulo wrap is the step to the following index |
| Day17.AdvanceSplit | day17/src/main.rs:128-132 | k1 + k2 jets are k1 jets followed by k2 jets |
| Day17.AdvanceCounts | day17/src/main.rs:130 | Before the end of the pattern the index counts up |
| Day17.WindCycles | day17/src/main.rs:128-132 | The pattern repeats every `len` jets, from any index |
| Day17.CellAt | day17/src/main.rs:141-148 | Left of 0, from column 7 on and below row 0 is Wall; any other absent cell is Air |
| Day17.HitsMeaning | day17/src/main.rs:77-79 | The `any` holds exactly when some cell of the rock is not Air |
| Day17.FreeInside | day17/src/main.rs:141-148 | A rock that does not collide lies inside the chamber: every one of its cells is between the walls (columns 0 to 6) and at or above the floor (row 0) |
| Day17.TopUnique | day17/src/main.rs:150-152 | The top of the cave is determined by its cells |
| Day17.HighestExists | day17/src/main.rs:151 | A finite non-empty set of cells has a highest one, so `max()` exists |
| Day17.TopExists | day17/src/main.rs:150-152 | Every cave has a top: the highest solid row, or -1 |
| Day17.TopOf | day17/src/main.rs:150-152 | The top as a value satisfies the definition |
| Day17.EmptyTop | day17/src/main.rs:151 | An empty cave has top -1 |
| Day17.PlaceMeaning | day17/src/main.rs:154-158 | Freezing a rock makes each of its cells Rock and leaves every other cell as it was |
| Day17.RockRaisesTop | day17/src/main.rs:151-156 | Making a cell Rock never lowers the top, and the cell is at or below the new top |
| Day17.PlaceRaisesTop | day17/src/main.rs:154-158 | `put_rock` never lowers `get_top` |
| Day17.Cave.constructor | day17/src/main.rs:135-138 | A new cave is empty |
| Day17.Cave.GetTop | day17/src/main.rs:150-152 | `get_top` returns the highest row with a cell that is not Air, or -1 |
| Day17.Cave.PutRock | day17/src/main.rs:154-158 | `put_rock` makes every cell of the rock Rock |
| Day17.Settle | day17/src/main.rs:186-212 | A rock comes to rest where it does not collide but falling one more row would, never above where it started |
| Day17.SettleStep | day17/src/main.rs:187-211 | One round: the jet pushes the rock unless that collides, then it falls one row unless that collides, in which case it freezes |
| Day17.SpawnIsFree | day17/src/main.rs:182 | A rock spawned two columns from the wall and three rows above the top collides with nothing |
| Day17.Run | day17/src/main.rs:181-213 | After any number of rocks every solid cell is Rock inside the chamber, and the jet index stays in the pattern |
| Day17.Fall | day17/src/main.rs:186-212 | The fall loop leaves the rock where the settling rule puts it, advances the jets as it does, and freezes the rock there |
| Day17.DropRock | day17/src/main.rs:182-212 | One turn spawns the next shape above the top and lets it fall, giving the next tower state |
| Day17.Simulate | day17/src/main.rs:175-218 | After `rocks` rocks the reported height is the top plus one; an empty jet pattern panics at the first jet |
| Day17.NextShape | day17/src/main.rs:45-56 | The iterator moves on to a different shape, and back to the horizontal bar exactly after the square |
| Day18.AdjacentMeaning | day18/src/main.rs:14-20 | `adjacent` is reflexive and symmetric, and two distinct cubes are adjacent exactly when they share a face |
| Day18.ParsePrinted | day18/src/main.rs:27-38 | "x,y,z" printed from non-negative coordinates parses back to the point |
| Day18.SignedDigits | day18/src/main.rs:33-35 | A printed non-negative coordinate parses back as an isize |
| Day18.ParseCubes | day18/src/main.rs:70-73 | Every line parses to its point; any bad line panics |
| Day18.CoveredCounts | day18/src/main.rs:80-83 | Among distinct cubes, the `filter(..).count()` is the number of distinct covering cubes |
| Day18.AtMostSixCover | day18/src/main.rs:80-85 | Among distinct cubes at most six cover any one, so `6 - covered` never underflows |
| Day18.CountCovered | day18/src/main.rs:80-83 | The inner count returns the number of other cubes adjacent to the cube |
| Day18.DistinctExposed | day18/src/main.rs:78-86 | With distinct cubes part one never panics and counts at most six faces per cube |
| Day18.ExposedFails | day18/src/main.rs:85 | Once the `usize` subtraction has panicked the count stays panicked |
| Day18.ExposedSides | day18/src/main.rs:76-86 | The loop adds 6 minus the covering cubes for each cube |
| Day18.Largest | day18/src/main.rs:93-95 | `max()` of a non-empty list bounds every value and is one of them |
| Day18.Visit | day18/src/main.rs:124-148 | A neighbour inside the box that is Air becomes Steam and is queued at the front; anything else changes nothing; the unfilled cells never grow and shrink on a visit |
| Day18.Flood | day18/src/main.rs:92-153 | The flood fill ends with the cubes as Rock and otherwise only Steam inside the box, each Steam cell queued once |
| Day18.TouchingAdd | day18/src/main.rs:164-176 | Summing over one more cell adds its steam contacts if it is Rock |
| Day18.CountSteam | day18/src/main.rs:169-174 | The inner count returns the Steam cells adjacent to one rock cell |
| Day18.ExposedToSteam | day18/src/main.rs:164-176 | Part two counts the touching (rock, steam) pairs of the map |
| Day18.Solve | day18/src/main.rs:69-181 | Both surface counts: part one as above, part two over the flood-filled map. An empty input panics, and so does part one when some entry has more than six covering entries. Equal points never cover each other, so that needs repeated neighbours |
| Day18.ParsePoint | day18/src/main.rs:30-37 | A parsed point comes from the first three ","-separated parts, each an i64; an error comes from a coordinate that does not parse; a panic from fewer than three parts |
| Day18.Exposed | day18/src/main.rs:78-86 | Part one panics exactly when some cube has more than six covering entries; otherwise it counts at most six faces per cube |
| Day19.Assign | day19/src/main.rs:77-83 | Writing an item sets that resource's amount and keeps the others |
| Day19.Sub | day19/src/main.rs:89-100 | Paying a price the stash covers leaves what, plus the price, is the old stash |
| Day19.CanBuild | day19/src/main.rs:31-57 | A robot can be built exactly when the stash covers its price in all four resources |
| Day19.CanBuildMeaning | day19/src/main.rs:31-57 | A robot is affordable exactly when the stash is its price plus some remainder, so paying never underflows |
| Day19.Production | day19/src/main.rs:130-135 | One round mines one unit per robot of each kind |
| Day19.Initial | day19/src/main.rs:117-127 | The start state has one ore robot, no other robot and an empty stash |
| Day19.RunBots | day19/src/main.rs:130-135 | `run_bots` adds each robot count to its resource and keeps the robots |
| Day19.WithRobot | day19/src/main.rs:161-188 | One more robot of the kind, the rest unchanged |
| Day19.Build | day19/src/main.rs:155-190 | A build pays the price, lets the old robots mine, then adds one robot of its kind, which does not mine that round |
| Day19.Successors | day19/src/main.rs:193-195 | Building nothing is always a successor |
| Day19.BuildsDiffer | day19/src/main.rs:155-195 | A build differs from waiting, and builds of different robots differ |
| Day19.SuccessorsMeaning | day19/src/main.rs:155-195 | The successors are waiting plus every affordable build the greedy order allows: geode first, else obsidian, else ore and clay |
| Day19.SuccessorsGrow | day19/src/main.rs:155-195 | Robot counts never decrease and a round adds at most one robot |
| Day19.BuildGrows | day19/src/main.rs:155-190 | A build adds exactly one robot, of its kind |
| Day19.ReachNonEmpty | day19/src/main.rs:193-218 | Waiting is always possible, so no round empties the set and the final `unwrap` never fails |
| Day19.StepFrom | day19/src/main.rs:147-201 | Every new state comes from a state of the previous round |
| Day19.ReachRobots | day19/src/main.rs:142-210 | After n rounds every state keeps its ore robot and has at most n robots more than the start |
| Day19.StepAdd | day19/src/main.rs:149-197 | Expanding one more state adds its successors |
| Day19.Branch | day19/src/main.rs:149-196 | The body of the inner loop inserts exactly the state's successors |
| Day19.Expand | day19/src/main.rs:147-201 | The inner loop builds the union of every state's successors |
| Day19.MaxGeodeUnique | day19/src/main.rs:214-218 | The most geodes of a set of states is determined by the set |
| Day19.MostGeodes | day19/src/main.rs:214-218 | A non-empty set of states has a most-geodes value |
| Day19.MaxGeode | day19/src/main.rs:204-218 | `max()` is None exactly on no states, and otherwise the most geodes held |
| Day19.TestBlueprint | day19/src/main.rs:138-219 | `test_blueprint` returns the most geodes held after 24 rounds from the start state |
| Day19.QualitySum | day19/src/main.rs:240-245 | The sum of (n + 1) times each blueprint's geodes |
| Day19.ParseItem | day19/src/main.rs:74-83 | An item changes one resource's amount at most |
| Day19.ParseItemsFails | day19/src/main.rs:73-84 | A failure among the first items is the result of the whole stash |
| Day19.ParseStash | day19/src/main.rs:68-87 | `Stash::from_str`'s loop applies the " and " items in turn to the empty stash |
| Day19.ParseItemText | day19/src/main.rs:74-83 | "q resource" parses to the stash with that amount set |
| Day19.ItemWords | day19/src/main.rs:74-76 | A printed item splits at its space into the amount and the name |
| Day19.ParseStashItems | day19/src/main.rs:68-87 | Parsing the items of a printed stash gives it back |
| Day19.ParseFourItems | day19/src/main.rs:73-84 | Four items, each parsed from the stash the one before leaves, make the stash |
| Day19.ParseItemsNext | day19/src/main.rs:73-84 | Parsing one more item continues from the stash of the items before |
| Day19.CostText | day19/src/main.rs:19-25 | A missing sentence or a missing "costs " panics |
| Day19.ReadCost | day19/src/main.rs:22-25 | A parsed price has every amount within the usize range |
| Day19.ParseItemsBounded | day19/src/main.rs:75 | Every parsed amount fits a usize |
| Day19.ReadBlueprint | day19/src/main.rs:15-28 | A parsed blueprint has every price within the usize range |
| Day19.ReadBlueprintFails | day19/src/main.rs:21-26 | A price that fails after the earlier ones were read fails the line with the same failure |
| Day19.ReadBlueprintOk | day19/src/main.rs:21-26 | Four prices read make the blueprint, in the order ore, clay, obsidian, geode |
| Day19.ParseCost | day19/src/main.rs:22-25 | Reading one price through `Stash::from_str` gives the price |
| Day19.ParseBlueprint | day19/src/main.rs:15-28 | `Blueprint::from_str` reads the four prices in a row, returning the first failure |
| Day19.Add | day19/src/main.rs:92-99 | The componentwise sum that `Sub` undoes: each amount is the sum of the two amounts |
| Day20.Remove | day20/src/main.rs:17-28 | `Vec::remove` shortens the message by one |
| Day20.Insert | day20/src/main.rs:19-32 | `Vec::insert` lengthens the message by one and puts the entry at the index |
| Day20.RemoveInsert | day20/src/main.rs:17-21 | Removing what was just inserted gives the message back |
| Day20.RemoveInsertPermutes | day20/src/main.rs:17-32 | Removing an entry and inserting it back anywhere rearranges the message |
| Day20.MovedLeft | day20/src/main.rs:14-23 | `move_left` keeps the length and the entries |
| Day20.MovedRight | day20/src/main.rs:25-34 | `move_right` keeps the length and the entries |
| Day20.MovedKeepsOrder | day20/src/main.rs:14-34 | The moved entry lands at its target and every other entry keeps its relative order |
| Day20.MovedLeftShape | day20/src/main.rs:18-22 | Away from the front `move_left` swaps the entry with its left neighbour; at the front it goes just before the last entry |
| Day20.MovedRightShape | day20/src/main.rs:29-33 | Away from the back `move_right` swaps the entry with its right neighbour; from the back it goes just after the first entry |
| Day20.PresentAfter | day20/src/main.rs:15-38 | Rearranging the entries keeps every id, so the `unwrap` of `position` keeps succeeding |
| Day20.AllPresentAfter | day20/src/main.rs:37-38 | Rearranging the entries keeps all ids 0..n-1 |
| Day20.PositionOf | day20/src/main.rs:15-38 | `position` returns the first index holding the id |
| Day20.MoveLeftId | day20/src/main.rs:14-23 | Moving an id left keeps the length and the entries |
| Day20.MoveRightId | day20/src/main.rs:25-34 | Moving an id right keeps the length and the entries |
| Day20.LeftTimes | day20/src/main.rs:47-50 | Repeated left moves keep the length and the entries |
| Day20.RightTimes | day20/src/main.rs:43-45 | Repeated right moves keep the length and the entries |
| Day20.MoveId | day20/src/main.rs:38-51 | The moves of one id keep the length |
| Day20.Mixed | day20/src/main.rs:37-52 | Moving the ids in turn keeps the length |
| Day20.MoveIdPermutes | day20/src/main.rs:38-51 | The moves of one id rearrange the message |
| Day20.MixedPermutes | day20/src/main.rs:36-56 | Mixing rearranges the message: no entry is lost or duplicated |
| Day20.MixedStep | day20/src/main.rs:37-52 | One more step of the mix moves the entry with the next id, which is still present |
| Day20.Enumerate | day20/src/main.rs:8-12 | `Message::new` numbers the values from 0 in order |
| Day20.Message.constructor | day20/src/main.rs:8-12 | A new message holds the numbered values |
| Day20.Message.MoveLeft | day20/src/main.rs:14-23 | `move_left` updates the entries in place as the left move does |
| Day20.Message.MoveRight | day20/src/main.rs:25-34 | `move_right` updates the entries in place as the right move does |
| Day20.Message.MoveEntry | day20/src/main.rs:38-51 | One id moves right value mod (n - 1) times when its value is positive, and left (-value) mod (n - 1) times otherwise |
| Day20.Message.Shuffle | day20/src/main.rs:36-56 | `shuffle` moves every id in original order, keeping the entries and all ids |
| Day20.Message.MixAll | day20/src/main.rs:37-52 | The loop over the ids performs the whole mix |
| Day20.Message.MixStep | day20/src/main.rs:38-51 | One turn of the loop moves the entry with id i |
| Day20.NextIndex | day20/src/main.rs:78 | The modulo wrap is the step to the following position |
| Day20.Cycle | day20/src/main.rs:76-80 | After k steps the position is on the circle |
| Day20.CycleBelow | day20/src/main.rs:78 | Fewer than n steps from 0 reach position k |
| Day20.CyclePeriod | day20/src/main.rs:78 | n more steps come back to the same position |
| Day20.Iter.constructor | day20/src/main.rs:60-65 | The walk starts at position 0 |
| Day20.Iter.Next | day20/src/main.rs:76-80 | The k-th call yields the value at position k mod n, and there is always a next value |
| Day20.ZeroAt | day20/src/main.rs:95 | `skip_while` stops at the first position holding zero |
| Day20.Coordinate | day20/src/main.rs:95-97 | The coordinate is the value k places after the first zero, around the circle |
| Day20.MixedRounds | day20/src/main.rs:116-118 | Any number of shuffles keeps the length, the entries and all ids |
| Day20.Scale | day20/src/main.rs:111 | Every value is multiplied by the key |
| Day20.ZeroKept | day20/src/main.rs:93-97 | Rearranging the entries keeps a zero, so the coordinate walk ends |
| Day20.Grove | day20/src/main.rs:95-104 | The sum of the values 1000, 2000 and 3000 places after the zero |
| Day20.Decrypted | day20/src/main.rs:109-118 | The decrypted message has the input's length and still holds a zero |
| Day20.Decrypt | day20/src/main.rs:83-128 | Each part scales the values, shuffles them the given number of times and returns the coordinate sum |
| Day21.ParseElement | day21/src/main.rs:17-36 | A first word that parses as an i64 gives a number; otherwise three words are needed (a missing one panics) and an unknown operator is an error |
| Day21.SignedText | day21/src/main.rs:22 | The decimal text of a number is a non-empty word without spaces or colons |
| Day21.ParseSignedText | day21/src/main.rs:22 | Parsing the decimal text of an i64 gives it back |
| Day21.ParseElementText | day21/src/main.rs:17-36 | Parsing the text of a well-formed element gives the element back |
| Day21.OperationText | day21/src/main.rs:18-26 | The text of an operation splits into its three words, and its first word is not a number |
| Day21.TruncDiv | day21/src/main.rs:45 | i64 division rounds toward zero: the quotient's magnitude is the floor of the magnitudes' ratio, with the sign of the operands' product |
| Day21.DivBounds | day21/src/main.rs:45 | The floor quotient of naturals lies within one divisor of the dividend |
| Day21.Calculate | day21/src/main.rs:40-48 | The operation applied to the operands within the i64 range; a number is an error, and overflow or a division by zero panics |
| Day21.AccessorsAgree | day21/src/main.rs:40-69 | `is_operation`, `get_orerands`, `get_number` and `calculate` agree on which elements are operations |
| Day21.ConsistentRanked | day21/src/main.rs:86-99 | Replacing monkeys by their values keeps the references acyclic |
| Day21.ReadyExists | day21/src/main.rs:86-99 | While an operation is left, some operation has both operands known, so a sweep makes progress |
| Day21.Visit | day21/src/main.rs:88-96 | A ready operation becomes its recursive value; nothing becomes an operation again; a failure is a panic of that monkey's calculation |
| Day21.Sweep | day21/src/main.rs:87-98 | A sweep over all names keeps every monkey at its value and removes at least one operation while any is left |
| Day21.SweepShrinks | day21/src/main.rs:87-98 | After the whole sweep strictly fewer operations are left |
| Day21.SettledStep | day21/src/main.rs:87-98 | Visiting one more name keeps every ready monkey seen so far a number |
| Day21.OpsShrink | day21/src/main.rs:95 | Turning an operation into a number strictly shrinks the operations left |
| Day21.ReadyKept | day21/src/main.rs:90 | A ready monkey stays ready later in the sweep |
| Day21.Solve | day21/src/main.rs:84-101 | The loop ends with root's number, which is root's recursive value; a missing root panics, as does a failing calculation |
| Day21.ParseLine | day21/src/main.rs:75-81 | A line is "name: element"; a missing or bad element panics |
| Day21.ParseLineText | day21/src/main.rs:75-81 | Parsing the text of a monkey gives it back |
| Day21.ParseMonkeys | day21/src/main.rs:73-82 | The last line for a name wins; any bad line panics |
| Day21.ParseMonkeysOk | day21/src/main.rs:73-82 | The input parses exactly when every line does |
| Day21.ParseMonkeysFrom | day21/src/main.rs:73-82 | Every monkey in the map comes from one of the lines |
| Day22.Value | day22/src/main.rs:5-12 | The facing values are below 4 |
| Day22.Turned | day22/src/main.rs:15-30 | R adds one quarter turn to the facing value and L takes one away, modulo 4 |
| Day22.ValueInjective | day22/src/main.rs:5-12 | Each direction has its own value |
| Day22.TurnsCancel | day22/src/main.rs:15-30 | R then L, or L then R, comes back; four equal turns come back |
| Day22.ParseTile | day22/src/main.rs:63-73 | '.' is open, '#' a wall, any other character an error |
| Day22.RowTilesMeaning | day22/src/main.rs:89-93 | One line adds exactly its tile characters, at their column in that row |
| Day22.TilesOfMeaning | day22/src/main.rs:85-94 | The board holds exactly the '.' and '#' characters of the lines, at (column, line number) |
| Day22.RowMember | day22/src/main.rs:96-101 | A row's x coordinates are those of the tiles on that row |
| Day22.ColumnMember | day22/src/main.rs:143-149 | A column's y coordinates are those of the tiles in that column |
| Day22.Ahead | day22/src/main.rs:136-202 | The cell ahead is the neighbour in the facing, in the same row when moving left or right |
| Day22.Wrapped | day22/src/main.rs:143-216 | Stepping off the board lands on a tile |
| Day22.NextOnBoard | day22/src/main.rs:133-220 | The next position is on the board, in the cursor's own row or column; off the board it is the extreme tile of that line on the far side |
| Day22.Stepped | day22/src/main.rs:121-123 | One step keeps the cursor on the board |
| Day22.Walk | day22/src/main.rs:120-126 | A forward move keeps the cursor on the board |
| Day22.WalkKeeps | day22/src/main.rs:119-127 | A forward move keeps the facing and ends where it started or on an open tile |
| Day22.WallStops | day22/src/main.rs:121 | Facing a wall, a forward move of any length stays put |
| Day22.TrailMarks | day22/src/main.rs:124-125 | The visited map only grows, and the final position is recorded with the move's facing |
| Day22.Moved | day22/src/main.rs:116-131 | A path step keeps the cursor on the board |
| Day22.Followed | day22/src/main.rs:302-308 | A whole path keeps the cursor on the board |
| Day22.Board.constructor | day22/src/main.rs:102-111 | A new board has no visits and its cursor at the start, facing right |
| Day22.Board.NextTilePosition | day22/src/main.rs:133-220 | `next_tile_position` returns the next position, which is on the board |
| Day22.Board.MoveCursor | day22/src/main.rs:116-131 | A turn changes only the facing; a forward move steps the distance over open tiles and records each position in `visited` |
| Day22.Board.Follow | day22/src/main.rs:302-308 | The loop over the path leaves the cursor where the whole path leads |
| Day22.ReadRow | day22/src/main.rs:89-93 | The inner loop adds the tiles of one line |
| Day22.ReadTiles | day22/src/main.rs:86-94 | The outer loop builds the board's tiles |
| Day22.FindStart | day22/src/main.rs:96-101 | The start column is the least x on row 0; a board without one panics |
| Day22.ReadBoard | day22/src/main.rs:82-112 | `from_str` gives the tiles of the lines, no visits and the cursor at the start facing right, or panics when row 0 is empty |
| Day22.StartIsFirstTile | day22/src/main.rs:96-101 | The start is the first tile character of the first line |
| Day22.Flush | day22/src/main.rs:269-288 | A non-empty run of digits becomes one forward move, an empty run nothing; a bad number is an error |
| Day22.ParsePath | day22/src/main.rs:262-291 | The loop yields the path the recursive reading of the text gives |
| Day22.TurnStep | day22/src/main.rs:268-281 | A turn letter flushes the digits and then adds the turn |
| Day22.PrintableTail | day22/src/main.rs:262-291 | The rest of a printable path is printable |
| Day22.CollectDigits | day22/src/main.rs:282 | Characters other than turn letters are only collected |
| Day22.ParsePathText | day22/src/main.rs:262-291 | Parsing the text of a printable path gives the path back |
| Day22.TurnFirst | day22/src/main.rs:268-281 | A turn in front of a path reads back |
| Day22.ForwardText | day22/src/main.rs:270-287 | The digits of a distance read back as that forward move |
| Day22.ForwardFirst | day22/src/main.rs:268-288 | A forward move in front of a turn reads back |
| Day22.ExamplePath | day22/src/main.rs:262-291 | "10R5L5" reads as forward 10, R, forward 5, L, forward 5 |
| Day22.PasswordDecodes | day22/src/main.rs:312-314 | On a board less than 249 columns wide the password gives back row, column and facing |
| Day22.Solve | day22/src/main.rs:293-319 | The password of where the path leads from the start; a missing path part or a row 0 without tiles panics, and a bad path is an error |
| Day22.Password | day22/src/main.rs:312-314 | Taken modulo 4 the password is the value of the facing, because the row and column terms are multiples of 4 |
| Day23.Plus | day23/src/main.rs:22-31 | The sum moves a point by the offset |
| Day23.InitialChecks | day23/src/main.rs:170-176 | Four groups of three cells: north, south, west, east |
| Day23.FirstClearMeaning | day23/src/main.rs:67-78 | The elf takes the move of the first group with no elf on it, after every earlier group was blocked, or stays when all are blocked |
| Day23.ProposalEmpty | day23/src/main.rs:45-79 | A proposed cell is the elf's own or an empty one |
| Day23.DestinationsDiffer | day23/src/main.rs:86-106 | Two elves never end a round on the same cell |
| Day23.DestinationsAdd | day23/src/main.rs:86-106 | One more elf adds its own destination |
| Day23.DestinationsCount | day23/src/main.rs:86-106 | Distinct elves have as many destinations |
| Day23.MovedCount | day23/src/main.rs:81-113 | A round keeps the number of elves |
| Day23.RotateLeft | day23/src/main.rs:111-112 | The first group goes to the back, the others move up by one |
| Day23.FourRotations | day23/src/main.rs:111-112 | Four rotations restore the order of the four groups |
| Day23.RotateKeepsMoves | day23/src/main.rs:111-112 | Rotating keeps a move in every group |
| Day23.SpreadCount | day23/src/main.rs:187-191 | Any number of rounds keeps the number of elves |
| Day23.ColumnCount | day23/src/main.rs:124-128 | A column's empty and occupied cells make up its height |
| Day23.BoxCount | day23/src/main.rs:123-129 | A box's empty and occupied cells make up its area |
| Day23.Map.constructor | day23/src/main.rs:170-178 | A new map holds the elves and the checks in their initial order |
| Day23.Map.Neighbours | day23/src/main.rs:47-58 | The scan finds whether any of the eight neighbours holds an elf |
| Day23.Map.NextMove | day23/src/main.rs:45-79 | `next_move` returns the elf's proposal |
| Day23.Map.MoveElves | day23/src/main.rs:81-113 | After a round the elves are where they were going and the checks have rotated; the number of elves is kept |
| Day23.Map.Destinations | day23/src/main.rs:82-106 | The loop over the elves builds the round's new positions |
| Day23.Map.Run | day23/src/main.rs:187-191 | `n` calls of `move_elves` give the elves and checks after `n` rounds |
| Day23.Map.CountColumn | day23/src/main.rs:124-128 | The inner loop counts the empty cells of one column |
| Day23.Map.CountSpace | day23/src/main.rs:115-132 | The empty cells of the bounding box are its area less the elves; without elves it panics |
| Day23.RowElves | day23/src/main.rs:159-167 | A bad character in a line is an error |
| Day23.ElvesOf | day23/src/main.rs:158-168 | A bad character in any line is an error |
| Day23.RowElvesMeaning | day23/src/main.rs:159-167 | A line is accepted exactly when it holds only '.' and '#'; its elves are the '#' characters |
| Day23.ElvesOfMeaning | day23/src/main.rs:156-168 | The input is accepted exactly when it holds only '.' and '#'; the elves are at the '#' characters, at (column, line) |
| Day23.ReadRow | day23/src/main.rs:159-167 | The inner loop of `from_str` reads one line |
| Day23.RowFails | day23/src/main.rs:165 | A bad character fails the whole line |
| Day23.Parse | day23/src/main.rs:153-180 | `from_str` gives the elves of the lines and the initial checks, or an error exactly when a character is bad |
| Day23.LinesFail | day23/src/main.rs:158-168 | A failing line fails the whole input |
| Day23.Solve | day23/src/main.rs:182-196 | The empty cells of the bounding box after ten rounds; a bad input is an error and no elves panic |
| Day24.Plus | day24/src/main.rs:25-34 | The sum moves a point by the offset |
| Day24.Step | day24/src/main.rs:79-110 | A blizzard moves one cell along its own row or column, keeps its direction and stays inside the valley, wrapping to the far side |
| Day24.MoveAll | day24/src/main.rs:78-111 | Every blizzard moves, keeping the count, the directions and being inside the valley |
| Day24.StepsAdd | day24/src/main.rs:121 | `m + n` minutes of a blizzard are `m` minutes followed by `n` |
| Day24.RightRun | day24/src/main.rs:88-94 | Short of the wall a right blizzard moves `k` cells right in `k` minutes |
| Day24.LeftRun | day24/src/main.rs:102-108 | Short of the wall a left blizzard moves `k` cells left in `k` minutes |
| Day24.DownRun | day24/src/main.rs:95-101 | Short of the wall a down blizzard moves `k` cells down in `k` minutes |
| Day24.UpRun | day24/src/main.rs:81-87 | Short of the wall an up blizzard moves `k` cells up in `k` minutes |
| Day24.RightPeriod | day24/src/main.rs:88-94 | A right blizzard is back after `width` minutes |
| Day24.LeftPeriod | day24/src/main.rs:102-108 | A left blizzard is back after `width` minutes |
| Day24.DownPeriod | day24/src/main.rs:95-101 | A down blizzard is back after `height` minutes |
| Day24.UpPeriod | day24/src/main.rs:81-87 | An up blizzard is back after `height` minutes |
| Day24.Period | day24/src/main.rs:78-111 | A horizontal blizzard is back after `width` minutes, a vertical one after `height` |
| Day24.Offsets | day24/src/main.rs:127-130 | Five offsets are tried from each position |
| Day24.KeptFromMeaning | day24/src/main.rs:124-145 | The candidates kept from a position are exactly the kept cells among its offsets |
| Day24.OffsetsNear | day24/src/main.rs:127-130 | The offsets reach exactly the cells at distance at most one |
| Day24.ExpandMeaning | day24/src/main.rs:124-145 | A cell is in the next frontier exactly when it passes the test and is near some current position |
| Day24.GoalKept | day24/src/main.rs:139-141 | The exit is kept from any position next to it, whatever the blizzards |
| Day24.Frontier | day24/src/main.rs:120-152 | The search keeps the number of blizzards |
| Day24.FrontierWind | day24/src/main.rs:121 | After `k` minutes each blizzard has moved `k` times |
| Day24.WindReturns | day24/src/main.rs:121 | In the search a blizzard inside the valley is back in place after its period |
| Day24.KeepsBeyondWall | day24/src/main.rs:134 | As written, a blizzard-free cell at x == width, in the right wall, passes the test |
| Day24.KeepInsideMeaning | day24/src/main.rs:133-141 | With x bounded by the width, a kept cell is a blizzard-free valley cell or the exit, and in a valley no taller than wide it keeps a subset of the written test |
| Day24.Maze.constructor | day24/src/main.rs:69-73 | A new maze holds the blizzards and the size |
| Day24.Maze.MoveWind | day24/src/main.rs:78-111 | `move_wind` moves every blizzard in place and keeps the size |
| Day24.Maze.WindPositions | day24/src/main.rs:122 | The set of cells under a blizzard |
| Day24.Maze.Candidates | day24/src/main.rs:125-144 | The inner loop pushes the kept candidates of one position |
| Day24.Maze.Advance | day24/src/main.rs:124-145 | The new frontier is the expansion of the current one |
| Day24.Maze.SolveMinDistance | day24/src/main.rs:113-155 | The result is the first minute whose frontier holds the exit: it is reached then and at no earlier minute |
| Day24.ArrowOf | day24/src/main.rs:58-64 | Exactly the four arrows are blizzards |
| Day24.CellsWindMeaning | day24/src/main.rs:56-65 | A row's blizzards are exactly its arrows, at their index |
| Day24.WindOfMeaning | day24/src/main.rs:55-67 | A blizzard is read exactly where a row below the header has an arrow, one column left of the character |
| Day24.Dimensions | day24/src/main.rs:47-73 | Without a header or with one shorter than 2 it panics; the width is the header less its walls, the height the number of rows between the walls |
| Day24.ReadRow | day24/src/main.rs:56-65 | The inner loop reads the blizzards of one row |
| Day24.Parse | day24/src/main.rs:43-75 | `from_str` gives the blizzards and the size, or panics exactly when the header is missing or too short |
| Day24.Solve | day24/src/main.rs:181-189 | The minute printed is the first one the exit is reached |
| Day25.DigitOf | day25/src/main.rs:12-19 | Each SNAFU character stands for a digit in -2..2 |
| Day25.CharOf | day25/src/main.rs:43-50 | The printed character of a digit reads back as that digit |
| Day25.ParseStep | day25/src/main.rs:21 | Adding one more digit with its power of five is one Horner step |
| Day25.ParseSnafu | day25/src/main.rs:5-25 | `parse_snafu` gives the value of the digits, each weighted by 5 to its distance from the end; any other character panics |
| Day25.LowFirstAppend | day25/src/main.rs:43-50 | Pushing a digit adds it at the next power of five |
| Day25.ReverseValue | day25/src/main.rs:53 | Reversing the pushed digits gives the usual reading |
| Day25.Shift | day25/src/main.rs:31-41 | Taking a digit off the quotient keeps the value |
| Day25.PrintSnafu | day25/src/main.rs:27-55 | A positive number prints as SNAFU text starting with '1' or '2' whose value is the number; zero or less prints nothing |
| Day25.ParsePrinted | day25/src/main.rs:5-55 | Printing a positive number and parsing the text gives it back |
| Day25.Solve | day25/src/main.rs:57-65 | The sum of the lines' values, printed as SNAFU text whose value is the sum; a line that is not SNAFU panics |
| Day25.SnafuValue | day25/src/main.rs:5-25 | A SNAFU text of n digits has a value of magnitude at most (5^n - 1) / 2 |
| Text.DigitChar | day22/src/main.rs:270 | The character of a digit reads back as that digit |
| Text.ParseUnsigned | day4/src/main.rs:19-20 | `str::parse` for an unsigned type accepts an optional '+' and then only digits, with a value that fits |
| Text.ParseSigned | day1/src/main.rs:18 | `str::parse` for a signed type gives a value in range, negative only after a '-' |
| Text.NatToString | day22/src/main.rs:270 | The decimal text of a number is a non-empty run of digits |
| Text.NatToStringValue | day22/src/main.rs:270 | The digits of the decimal text add back up to the number |
| Text.ParseNatToString | day4/src/main.rs:19-20 | Parsing the decimal text of a value that fits gives it back |
| Text.FindFrom | day4/src/main.rs:15 | The first occurrence of the separator at or after a position, and none before it |
| Text.Split | day4/src/main.rs:15 | `str::split` always gives at least one piece |
| Text.JoinSplit | day4/src/main.rs:15 | Joining the pieces of a split with the separator rebuilds the string |
| Text.SplitJoin | day10/src/main.rs:12 | Splitting on a character undoes joining pieces without it |
| Text.SplitJoinMarked | day22/src/main.rs:295 | Splitting on a separator undoes joining pieces without its first character |
| Common.LeastOf | day23/src/main.rs:116-118 | `.min()` over a non-empty set gives its least element |
| Common.GreatestOf | day23/src/main.rs:117-119 | `.max()` over a non-empty set gives its greatest element |
| Common.SortDescProps | day1/src/main.rs:14-33 | Sorting gives a descending permutation with the same sum |
| Text.StripPrefix | day15/src/main.rs:48 | `strip_prefix` succeeds exactly when the string starts with the prefix, and the prefix and the rest make up the string |

## Left out

- Input and output: file reads, `println!`, `print!` and `dbg!` are left out. Each `Solve` takes the input lines or text as a parameter and returns the value that is printed.
- Rendering code is not modelled, because it only prints. This covers day 9 `display`, day 12 `Display` (colour and f32), day 17 `print`, day 18 `print_map`, day 22 `print_board`, day 23 `print` and day 24 `print`.
- The rayon parallel map of day 16 is modelled as a sequential map into a set. The result is a set, so order does not matter.
- The day 16 pruning that keeps only states at 90% of the best once there are more than ten million states is not modelled: it is f64 arithmetic.
- Day 16 `Valve::from_str` uses a regular expression. Instead the cave is given as names, rates and tunnel indices.
- Fixed-width integers are unbounded in the model. A stated precondition or an explicit `Panic` replaces an underflow or overflow in these places:
  - the day 7 `to_free` subtraction;
  - the day 18 face counts;
  - the day 19 `Stash` subtraction;
  - the day 21 i64 operations.
- Day14.Cave.SandStep: requires `bottom < 500`. That is enough for `down_left` never to see x = 0, but it also excludes caves 500 or more rows deep on which the source never underflows.
- Day20.Decrypt: the values scaled by 811589153 and their sums are unbounded, with no precondition; the source's isize product can overflow.
- Day25.ParseSnafu: `5i64.pow` and the i64 sum are unbounded, with no precondition; only a non-SNAFU character panics. This also holds for Day25.Solve.
- Day1.Group: the group sums are unbounded, with no precondition.
- `HashMap` and `BTreeSet` iteration order is not modelled; maps and sets are used instead. The results do not depend on the order, except for the day 21 sweep, whose every order is covered.
- The unused hard-coded blueprints of day 19 are not modelled.
- Day1.PeekIsMax: the `BinaryHeap` is modelled as a sequence sorted in descending order, not as a heap.
- Day 4 `Sections` assumes start <= end only where a lemma needs it, not in the parser, which accepts any pair.
- Day 5 `main`'s loop over the moves and its printing are left out. A move that would panic in the source (a stack number out of range, or a pop from an empty stack) is excluded by a precondition instead of modelled as an error: `CanExecuteOneByOne` for `execute`, which needs only one crate when source and destination are the same stack, and `CanExecuteAllAtOnce` for `execute_all_at_once`. Each holds exactly when the source method does not panic.
- Day 7's `Rc`/`RefCell`/`Weak` tree is a value tree reached by index paths. Reference counting and borrow panics are not modelled.
- Day 11 `Monkey::new_from_lines` is not modelled: the monkeys are given as data (items, operation, test and targets).
- Day11.Execute: worry levels are unbounded. The source's u32 `a * b` and `a + b` panic on overflow in a debug build and wrap in a release build; neither is modelled. This also holds for Day11.Throw and the rounds built on them.
- Day8.Survey: requires a rectangular forest whose first line is not empty. The source panics on an empty input (`forest.get(0).unwrap()`) and on an interior line shorter than the first (`get(y).unwrap()`); it ignores the extra trees of a longer line. An empty first line gives either an underflow panic or, with exactly two lines, zero. None of these inputs is modelled.
- Day12.Maze.constructor: requires a rectangular grid whose first line is not empty. The source panics only on an empty input (`field[0]`). It accepts ragged lines and an empty first line, bounding later lookups by the first line's width; those grids are not modelled.
- Day 12 `main`'s scan over all 'a' cells for the shortest start is not modelled.
- Day12.Settle: the search is proved to terminate and to keep its queue free of repeats, with layered distances. That the distances are shortest path lengths is not stated.
- Day 13 `main`'s decoder key is left out: `elements.sort()` uses the derived `Ord`, not the hand-written `partial_cmp`, and the derived order is not modelled.
- Day 14 `main`'s counting loop over sand units, and its floor variant, are not modelled.
- Day 15 `main`'s count on row 2000000 and the tuning frequency are left out. The row scan and the border search they use are modelled.
- Day18.Flood: the contract states that the fill keeps its invariant (rock cells stay rock, steam stays in the bounding box, each cell is queued once). It does not state that the steam reaches every cell connected to the outside.
- Day 19: the text round trip of a whole blueprint line is not stated; only a single item (`Day19.ParseItemText`) and the list of a stash's items (`Day19.ParseStashItems`) are proved to read back. The splitting lemma `Text.SplitJoinMarked` needs every piece to be free of the separator's first character, and that fails here: the 'c' of "costs " occurs in "Each" and "clay", and the ' ' of " and " occurs inside every "q resource" item. A splitting lemma for separators whose first character occurs in the pieces is not part of this model.
- Day20.Decrypt: requires at least two entries and a zero. With one entry the source divides by zero; with no zero the coordinate walk never ends. A missing id cannot occur, because mixing keeps all ids.
- Day21.Solve: requires every operand to name a monkey and every reference to go down a rank, so the references are acyclic. The source needs less. A missing operand panics, but only once a sweep reaches it, which happens in the first sweep unless root is already a number. A cycle loops forever only when root depends on it; a cycle elsewhere leaves the loop free to end. Neither input is modelled.
- Day 23: the source's map only ever holds `Tile::Elf`, so it is modelled as a set of positions.
- Day24.Maze.SolveMinDistance: it runs for at most `fuel` minutes and returns `None` after that. The source loops until the exit is reached, which it may never be.
- Day24.Solve: it takes the same `fuel` and answers `None` where the source loops forever; within the bound the minute returned is the first one the exit is reached.
- Day 24: a header shorter than two characters underflows `len() - 2` and is modelled as `Panic`.
- Strings are sequences of characters, and every length and split point counts characters. The source counts bytes in `split_at(line.len() / 2)` (day 3), in `split_at` after a `chars().count()` (day 13) and in `len() - 2` (day 24). The two agree only on ASCII text; multi-byte characters are not modelled.

## Findings

The model follows the code as written in both cases below. The corrected member states the evidently intended property and is proved alongside it.

| source | as written | input that shows it | evidently intended | confidence | as-written member | corrected member |
|---|---|---|---|---|---|---|
| day24/src/main.rs:134 | A candidate is kept when `x >= 0`, `y < width`, `y >= 0` and `y < height`; x has no upper bound | In a valley 3 wide and 2 high, the blizzard-free cell (3, 0) in the right wall is kept | `x < width` in place of the second `y < width` | not executed | Day24.KeepsBeyondWall | Day24.KeepInsideMeaning |
| day14/src/main.rs:87 | `bottom` is raised only by the second and later corners of each path | A single path from (500, 9) to (500, 2) leaves `bottom` at 2 while a rock lies at depth 9 | `bottom` is the greatest y of every corner, the first included | not executed | Day14.FirstCornerIgnored | Day14.FloorBoundsRocks |

