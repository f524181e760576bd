# A verified model of the aoc-2023 puzzle kernels

This project models, in Dafny, the computational kernels of a collection of Advent of
Code 2023 solutions written in Rust. Each solution reads a puzzle file and then runs a
small deterministic kernel; the kernels are modelled here, one module per day:

- `Common`: an optional value, decimal digits and numbers, `str::parse` for integers,
  splitting and joining strings, sums.
- `Shoelace`: the shoelace sum over a closed polygon, shared by days 10 and 18.
- `Day1` to `Day5`: line scanners (calibration digits, cube games, engine schematic part
  numbers and gears, scratchcards) and the seed almanac's interval remapping.
- `Day7`, `Day7b`: Camel Cards hand classification, ordering and winnings, without and
  with jokers.
- `Day8`, `Day8b`: L/R walks over a node graph, and the least common multiple of the walks.
- `Day9`: extrapolation by finite differences.
- `Day10`, `Day11`, `Day13`, `Day14`, `Day16`, `Day18`: grids (pipe loop and Pick's
  theorem, galaxy expansion and distances, mirror lines with and without a smudge,
  tilting rocks, light beams through mirrors and splitters, the dig-plan lagoon).
- `Day15`: the HASH algorithm as a hasher object and the HASHMAP lens boxes.
- `Day17`, `Day21`, `Day23`: the successor rules of three searches (the crucible cart, the
  garden walk, the hiking trail); the search drivers are library calls.
- `Day19`: workflow rules over rated parts.
- `Day22`: settling bricks of sand on a height grid, with bricks as objects whose ends
  are updated in place.

Code that loops and updates state is modelled by methods proved against specification
functions; the properties the code promises are proved about those functions. Where the
Rust code panics on malformed input, the model either has an error value (`Option`,
`Result`) or states the condition as a precondition. Integers are mathematical integers.

## Model

| member | source | states |
|---|---|---|
| Day1.FirstWordDigitIsFirstMatch | src/day1.rs:3-21 | the word search finds a digit exactly when one of the listed words is a prefix of the string, and then it is the digit of the first such word in list order |
| Day1.DigitStringCheck | src/day1.rs:3-21 | a word found stands for a digit from 1 to 9 |
| Day1.ExtractDigits | src/day1.rs:29-40 | the digits pushed are exactly those of `Digits(line)`: each position, left to right, contributes its decimal character or the digit of the word that starts there; every element is a decimal digit |
| Day1.DigitsUpTo | src/day1.rs:31-40 | the first n positions yield at most n digits, all decimal characters |
| Day1.NumericLineDigits | src/day1.rs:35-36 | a line made only of decimal characters yields itself as its digit list |
| Day1.DigitMakesDigits | src/day1.rs:35-36 | a decimal character anywhere in the line makes the digit list non-empty, so the unwraps that follow cannot panic |
| Day1.WordAtPosition | src/day1.rs:37-38 | any listed word starting at a non-digit position contributes that word's digit, whatever follows it (overlapping words included), since no other word can start there too |
| Day1.LineValue | src/day1.rs:44-48 | the line value is ten times the first digit plus the last digit, at most 99; a single digit is used twice |
| Day1.SumOfLines | src/day1.rs:25-52 | the total is the sum of the line values; every line must yield a digit (the source panics otherwise) |
| Day2.FirstCaptureNone | src/day2.rs:8-11 | a regex capture `pre([0-9]+)post` is absent exactly when the pattern matches at no position |
| Day2.BallCount | src/day2.rs:5-16 | `get_ball_count`: the number captured before " colour", or 0 without a match; AbsentColourCountsZero and LeadingCount state both cases |
| Day2.FirstCaptureLeftmost | src/day2.rs:10-13 | a capture is the number at the leftmost position where the pattern matches |
| Day2.AbsentColourCountsZero | src/day2.rs:5-16 | `get_ball_count` gives 0 for a round that never mentions " colour" |
| Day2.LeadingCount | src/day2.rs:5-16 | `get_ball_count` gives the integer written just before " colour" |
| Day2.MaxCountIsMaximum | src/day2.rs:46-58 | the minimum required per colour is the maximum count of that colour over the rounds: no round shows more, and one shows that many (or it is 0) |
| Day2.HeaderGameId | src/day2.rs:29-32 | the game id is the integer after `Game ` and before `:` |
| Day2.ParseGame | src/day2.rs:18-63 | the id is the header's capture, the validity flag is always true, and the power is the product of the three per-colour maxima over all rounds, the first phase included |
| Day2.ObserveRound | src/day2.rs:45-51 | one round raises each colour's required minimum to the largest count seen so far, the round included |
| Day3.RunsFrom | src/day3.rs:12-17 | the matches of `.*?([0-9]+).*?` are runs of digits inside the line, from the given position on |
| Day3.IsSymbol | src/day3.rs:5-8 | `is_symbol`: any character other than a decimal digit and `.`; AdjacentIffTouches, WindowIffNear and SameLineIffNear state where it is tested |
| Day3.RunsAreMaximalDigitRuns | src/day3.rs:12-17 | the runs found are exactly the maximal digit runs, in increasing order, and every digit of the line lies in one of them |
| Day3.RunFits | src/day3.rs:29-33 | a digit run ends within a neighbouring line that is at least as long as the target's digits, so the window slice is in range |
| Day3.WindowIffNear | src/day3.rs:22-60 | the window `[start-1, end]` of a neighbouring line, clipped at the left edge and at the right edge only when the run ends there, holds a symbol exactly when some column of the run has a symbol diagonally or straight next to it on that line |
| Day3.SameLineIffNear | src/day3.rs:62-72 | on the run's own line, checking only the characters at `start-1` and `end` (when they exist) finds a symbol exactly when some digit has a symbol beside it |
| Day3.AdjacentIffTouches | src/day3.rs:18-74 | the flag `has_adjacent_symbol` is set exactly when some digit of the run has a symbol among its eight neighbouring cells |
| Day3.PartsUpTo | src/day3.rs:14-77 | the part numbers of the first k runs number at most k |
| Day3.ScanWindow | src/day3.rs:34-40 | the scan over a window keeps a flag already set and otherwise sets it exactly when the window holds a symbol |
| Day3.CheckInput | src/day3.rs:10-80 | the parts returned are the values of the digit runs, left to right, that have an adjacent symbol |
| Day3.CheckRun | src/day3.rs:15-76 | one digit run is added to the parts exactly when its neighbourhood in the line before, the line after or its own line holds a symbol |
| Day3.AcceptedIffNextToStar | src/day3.rs:128-142 | with the window starting three columns before the star, a 1 to 3 digit number is taken exactly when it occupies the star's column or one next to it |
| Day3.AdjacentUpTo | src/day3.rs:123-143 | the numbers taken from the first k runs of the window number at most k |
| Day3.ExtractAdjacentNumbers | src/day3.rs:111-146 | the numbers returned are the accepted runs of the seven-column window `[star-3, star+4)` clipped to the line, left to right; the star must be at column 3 or later |
| Day3.StarsAreStarPositions | src/day3.rs:150-155 | the matches of `.*?(\*).*?` are exactly the positions of '*' in the line |
| Day3.RatiosOf | src/day3.rs:170-187 | the ratios of a list of candidate gears number at most the candidates |
| Day3.RatiosOfMembers | src/day3.rs:170-187 | every ratio is the product of a candidate with exactly two numbers, and every such candidate gives its product |
| Day3.RatiosAreGearProducts | src/day3.rs:172-185 | every ratio is the product of the two numbers next to one of the line's stars, and every star with exactly two numbers next to it gives its product |
| Day3.CollectGearNumbers | src/day3.rs:156-169 | the numbers next to a star are those from the line before, then the star's own line, then the line after |
| Day3.AddGearRatio | src/day3.rs:154-187 | one star adds its product to the ratios exactly when it has two numbers next to it, and leaves them alone otherwise |
| Day3.CheckForGears | src/day3.rs:148-192 | the ratios returned are, for each star left to right with exactly two adjacent numbers, their product; a star with more than two numbers is excluded by the precondition (the `assert!`) |
| Day4.ClassRunEnd | src/day4.rs:12 | a repeated character class of the card pattern matches up to the first character outside it |
| Day4.CardAt | src/day4.rs:12-14 | a match of the card pattern at a position gives two number groups made of digits and blanks, in order within the line |
| Day4.FirstCard | src/day4.rs:12-14 | the leftmost match of the card pattern, when there is one, gives two valid number groups |
| Day4.Format | src/day4.rs:5-7 | numbers written one after another with a blank after each make a text of digits and blanks |
| Day4.NumbersFormat | src/day4.rs:5-7 | `convert_number_capture_to_vector` reads the blank-separated integers back in order: parsing written numbers gives the same list |
| Day4.NoMatchesIffDisjoint | src/day4.rs:26-29 | the match count is 0 exactly when no winning number was scratched |
| Day4.MatchCountBound | src/day4.rs:26-29 | the match count is at most the number of winning numbers times the number of scratched numbers |
| Day4.CountMatches | src/day4.rs:26-29 | the loop adds, for each winning number, its occurrences among the scratched numbers |
| Day4.Points | src/day4.rs:32-35 | points are 0 exactly when there are no matches, and 2^(k-1) for k matches |
| Day4.PointsDouble | src/day4.rs:32-35 | every match after the first doubles the points |
| Day4.CardAtLayout | src/day4.rs:12 | a line laid out as `Card N: <numbers>\| <numbers>` is matched at its start with the two groups where they are written |
| Day4.CardLineLaidOut | src/day4.rs:12 | a line built from a card number and two number texts has that layout, and its groups are exactly those texts |
| Day4.WellFormedCard | src/day4.rs:9-38 | a card written in the puzzle format scores the points of the matches between its own winning and scratched numbers |
| Day4.ParseGameCard | src/day4.rs:9-38 | a line without a card match scores 0; otherwise the score is the points of the match count of the two captured groups |
| Day5.LookupFirstMatch | src/day5.rs:21-35 | a value in the range of the first matching entry maps to `dest_start + (source - source_start)`; a value in no range maps to itself |
| Day5.Lookup | src/day5.rs:21-35 | `map_source_to_destination` as a function: the first range holding the value maps it by its offset, a value in no range maps to itself (LookupFirstMatch, LookupSkips; MapSourceToDestination is the loop proved equal to it) |
| Day5.LookupSkips | src/day5.rs:21-35 | ranges that do not hold the value are passed over, so the search goes on with the rest of the list |
| Day5.MapSourceToDestination | src/day5.rs:21-35 | the early-return search over the entries gives the lookup value |
| Day5.SeedToLocation | src/day5.rs:37-48 | the seed passes through every map in almanac order |
| Day5.MinLocation | src/day5.rs:201-204 | the part A minimum starting from i64::MAX is at most every seed's location and is either i64::MAX or one of them |
| Day5.SplitChunk | src/day5.rs:100-134 | the destination chunk starts at `dest_start + offset`; the whole chunk is consumed (no remainder) exactly when the consumption covers its count; otherwise the destination count is the consumption, the counts add up to the source count and the remainder starts right after the consumed prefix |
| Day5.FirstHolding | src/day5.rs:54-67 | the first entry in list order whose range holds the value, or none holds it |
| Day5.FirstAbove | src/day5.rs:71-88 | the first entry in list order that starts above the value, or none does |
| Day5.MapChunk | src/day5.rs:52-98 | a remainder is strictly smaller than its source chunk and not empty, so the recursion on remainders terminates; the destination chunk is never larger than the source |
| Day5.MapChunkStart | src/day5.rs:52-98 | the destination chunk starts where `map_source_to_destination` sends the chunk's first value |
| Day5.PrefixMapsContiguously | src/day5.rs:58-87 | with entries sorted by source start (as the loader sorts them), every value of the consumed prefix moves by the same offset as the chunk start |
| Day5.WalkAtMostBest | src/day5.rs:136-157 | the loop never returns more than the minimum it started from |
| Day5.Walk | src/day5.rs:136-157 | the loop of `minimum_map_to_location_chunked` from map j on, recursing on each remainder, with the running minimum; WalkAtMostBest, ChunkedMinimumAtMostStartLocation and ChunkedMinimumLowerBound bound it |
| Day5.ChunkedMinimumAtMostStartLocation | src/day5.rs:136-157 | the chunked minimum is at most the location of the chunk's first seed, and at most i64::MAX |
| Day5.ChunkedMinimumLowerBound | src/day5.rs:136-157 | with sorted maps, the chunked minimum is at most the location of every seed in the chunk: splitting loses no seed |
| Day5.MapSourceToDestinationChunked | src/day5.rs:52-98 | the two early-return searches compute `MapChunk` |
| Day5.MinimumMapToLocationChunked | src/day5.rs:136-157 | the loop over the maps from the starting one, recursing on each remainder from the map that split it, computes the chunked minimum |
| Day7.CardFromChar | src/day7.rs:24-41 | exactly the thirteen characters `AKQJT98765432` give a card (never Undefined), and that card is written with the same character; every other character is an error |
| Day7.CardCharRoundTrip | src/day7.rs:24-41 | reading back the character of a card gives the same card |
| Day7.CardCharsDescend | src/day7.rs:6-21 | the cards are ordered Ace > King > ... > Two by their discriminants |
| Day7.Distinct | src/day7.rs:59-62 | the count map's keys are pairwise distinct and are exactly the cards of the hand |
| Day7.CountsOf | src/day7.rs:59-62 | each count is the number of occurrences of its key |
| Day7.CountCards | src/day7.rs:59-62 | the `entry().or_insert(0) += 1` loop builds one entry per distinct card, in order of first occurrence, holding that card's number of occurrences |
| Day7.CountCard | src/day7.rs:61 | one `entry().or_insert(0) += 1`: the card's entry goes up by one, or a new entry of 1 is added after the others |
| Day7.FindKey | src/day7.rs:61 | the entry lookup finds the index of the card among the keys, or reports it absent exactly when it is not a key |
| Day7.CountsBump | src/day7.rs:61 | counting a card that already has an entry raises only that entry, by one |
| Day7.CountsNew | src/day7.rs:61 | counting a card seen for the first time appends an entry of 1 and keeps the other counts |
| Day7.CountsSum | src/day7.rs:59-62 | the counts add up to the number of cards |
| Day7.CountsPositive | src/day7.rs:59-62 | every count is at least 1 |
| Day7.SortDescending | src/day7.rs:64-65 | sorting the counts and reversing gives a permutation of the counts, largest first |
| Day7.SortDescendingSum | src/day7.rs:64-65 | sorting keeps the total of the counts |
| Day7.GetHandTypeFromHand | src/day7.rs:57-95 | counting, sorting and reading the two largest counts gives the hand type of the hand's sorted counts (classified by FiveCardClassification); the source unwraps the first count, so the hand is non-empty |
| Day7.SortedCountsFacts | src/day7.rs:59-66 | the sorted counts are positive, largest first, and add up to the hand's size |
| Day7.HandTypeOf | src/day7.rs:57-95 | the hand type of a hand: the classification of its two largest card counts; GetHandTypeFromHand computes it, SortedCountsFacts and PartitionsOfFive describe the counts |
| Day7.PartitionsOfFive | src/day7.rs:75-93 | the sorted counts of five cards are one of the seven partitions of five |
| Day7.Classify | src/day7.rs:75-93 | the `if` ladder on the largest and second largest counts; FiveCardClassification states each hand type as an if-and-only-if on the partition |
| Day7.FiveCardClassification | src/day7.rs:75-93 | counts 5 give FiveOfAKind, 4/1 FourOfAKind, 3/2 FullHouse, 3/1/1 ThreeOfAKind, 2/2/1 TwoPair, 2/1/1/1 OnePair and all distinct HighCard, each an if-and-only-if; a five-card hand is never Undetermined |
| Day7.CompareFromFlip | src/day7.rs:129-145 | swapping the arguments reverses the comparison |
| Day7.CompareFromEqual | src/day7.rs:129-145 | the comparison says Equal exactly when the keys agree on the positions compared |
| Day7.CompareFromTransitive | src/day7.rs:129-145 | not-greater is transitive, so the comparison is a total preorder that `sort_by` can use |
| Day7.Key | src/day7.rs:129-145 | the key compared is the hand type's discriminant followed by each card's discriminant |
| Day7.PlayCmp | src/day7.rs:129-145 | `play_cmp` compares hand types first and then the first five cards from the left, returning at the first difference |
| Day7.CardValueInjective | src/day7.rs:6-21 | two cards have the same discriminant exactly when they are the same card |
| Day7.PlayCmpEqual | src/day7.rs:129-145 | for hands of at least five cards, `play_cmp` is Equal exactly when the hand types and the first five cards are equal |
| Day7.Total | src/day7.rs:159 | any two plays are ordered one way or the other |
| Day7.Transitive | src/day7.rs:159 | the order of plays is transitive |
| Day7.Insert | src/day7.rs:159 | inserting a play adds exactly that play |
| Day7.InsertAscending | src/day7.rs:159 | inserting into an ascending list behind every play not greater than it keeps it ascending |
| Day7.SortPlays | src/day7.rs:159 | the sorted plays are a permutation of the plays |
| Day7.SortPlaysAscending | src/day7.rs:159 | the sorted plays are in ascending `play_cmp` order |
| Day7.TiedAppend | src/day7.rs:159 | appending a play extends the plays tied with a given one by that play exactly when it ties |
| Day7.InsertTied | src/day7.rs:159 | inserting a play places it behind every play it ties with, so the tied plays keep their order with it last |
| Day7.SortPlaysStable | src/day7.rs:159 | `sort_by` is stable: plays that `play_cmp` ranks equal keep their input order |
| Day7.TotalWinnings | src/day7.rs:159-165 | the winnings are the sum of (rank + 1) times bid over the plays in sorted order |
| Day7.ToRanked | src/day7.rs:129-145 | the ranking key of a play holds the hand type and the first five cards |
| Day7.ToRankedCompare | src/day7.rs:129-145 | comparing the ranking keys is comparing the plays with `play_cmp` |
| Day7.PrefixCompare | src/day7.rs:133-141 | only the hand type and the first five cards take part in a comparison |
| Day7b.CardFromChar | src/day7b.rs:23-40 | exactly the thirteen card characters give a card, `J` giving the joker, and each card is written with its character; any other character is an error |
| Day7b.CardCharRoundTrip | src/day7b.rs:23-40 | reading back the character of a card gives the same card |
| Day7b.JokerWeakest | src/day7b.rs:6-20 | the joker's discriminant is below every other card's |
| Day7b.WithoutJoker | src/day7b.rs:66-80 | the keys other than the joker are exactly the count map's keys that are not the joker |
| Day7b.SplitJoker | src/day7b.rs:66-80 | the joker's count is read from the count map (0 when absent) and the remaining entries are the counts of the other cards |
| Day7b.HandTypeOf | src/day7b.rs:56-116 | the part-two hand type: the jokers join the largest other count, and a hand of jokers only is five of a kind; GetHandTypeFromHand computes it, JokersJoinLargest, NeverUndetermined and NoJokersAsPartOne state its properties |
| Day7b.GetHandTypeFromHand | src/day7b.rs:56-116 | the hand type is the classification of the jokers added to the largest other count, with the second largest other count; a hand of jokers only is five of a kind |
| Day7b.WithoutJokerSum | src/day7b.rs:66 | the other counts add up to the total minus the jokers |
| Day7b.OtherCountsFacts | src/day7b.rs:63-80 | the other counts are positive, largest first, and with the jokers make up the whole hand |
| Day7b.AllJokers | src/day7b.rs:82-85 | a hand of jokers only is five of a kind |
| Day7b.AddToLargest | src/day7b.rs:89 | adding the jokers to the largest count keeps the counts positive and descending and leaves the second largest alone |
| Day7b.JokersJoinLargest | src/day7b.rs:87-115 | with the jokers merged into the largest other count the counts of a five-card hand are a partition of five, and the hand type is the part-one classification of that partition |
| Day7b.NeverUndetermined | src/day7b.rs:96-115 | a five-card hand is never Undetermined, jokers or not |
| Day7b.NoJokersAsPartOne | src/day7b.rs:56-116 | without jokers the hand type is that of part one |
| Day7b.NoJokerKept | src/day7b.rs:69-80 | without a joker among the keys no entry is set aside |
| Day7b.Key | src/day7b.rs:150-166 | the key compared is the hand type's discriminant followed by each card's discriminant |
| Day7b.PlayCmp | src/day7b.rs:150-166 | `play_cmp` compares hand types first and then the first five cards from the left, returning at the first difference |
| Day7b.PlayCmpEqual | src/day7b.rs:150-166 | for hands of at least five cards, `play_cmp` is Equal exactly when the hand types and the first five cards agree, and swapping the plays reverses the answer |
| Day7b.ToRanked | src/day7b.rs:181-187 | the ranking key of a play is the key of its first five cards |
| Day7b.ToRankedCompare | src/day7b.rs:181-187 | sorting and the winnings of part one apply: comparing ranking keys is comparing plays with `play_cmp` |
| Day8.Move | src/day8.rs:38-48 | an `L` instruction moves to the node's left successor and an `R` to its right one |
| Day8.NextPos | src/day8.rs:35-36 | the instruction position stays in the string, wrapping back to the first instruction when the string is used up |
| Day8.CountSteps | src/day8.rs:31-57 | the nested loops of `count_steps` compute the walk that stops at the first goal node, also in the middle of the instruction string, and report a bad instruction or a missing node where the source panics |
| Day8.ModStep | src/day8.rs:35-36 | re-running the instruction string reads instruction k mod n at move k |
| Day8.Walk | src/day8.rs:31-57 | the walk from a node following the instructions cyclically until a goal node, counting moves, with an error on a bad instruction; CountSteps computes it, WalkFollowsPath, StepsToFirstGoal, MoreFuel and WalkCountsMoves state its properties |
| Day8.WalkFollowsPath | src/day8.rs:31-57 | a walk that reaches the goal has followed the cyclic instruction path and passed no goal before |
| Day8.StepsToFirstGoal | src/day8.rs:31-57 | the count returned is the number of moves to the first goal node on the instruction path: that node is a goal and no earlier node is |
| Day8.MoreFuel | src/day8.rs:35 | the step bound only decides walks that the source would not end: with more fuel a finished walk ends the same way |
| Day8.WalkCountsMoves | src/day8.rs:49 | the count never decreases, and is positive when the walk does not start at a goal |
| Day8.CountStepsToZzz | src/day8.rs:31-57 | part one walks from `AAA` to `ZZZ`; a reached count is at least one |
| Day8b.StartNodes | src/day8b.rs:39 | the starting nodes are exactly the graph's keys whose names end in `A`, in the map's order |
| Day8b.StartNodesDistinct | src/day8b.rs:39 | distinct keys give distinct starting nodes |
| Day8b.AllSteps | src/day8b.rs:43-72 | one count per starting node when every walk reaches a node ending in `Z`, otherwise the failure of the first walk that does not |
| Day8b.AllStepsWalks | src/day8b.rs:43-72 | count i is the part-one walk from start i with the goal "name ends in `Z`" |
| Day8b.CountsAreFirstArrivals | src/day8b.rs:48-69 | each count is the number of moves to the first node ending in `Z` on the cyclic instruction path from its start |
| Day8b.CountStepsAll | src/day8b.rs:34-75 | the loops of `count_steps` push, for each starting node in order, the count of its walk |
| Day8b.Gcd | src/day8b.rs:80 | the greatest common divisor is positive unless both arguments are 0 |
| Day8b.GcdDivides | src/day8b.rs:80 | the gcd divides both arguments |
| Day8b.GcdGreatest | src/day8b.rs:80 | every common divisor divides the gcd |
| Day8b.Lcm | src/day8b.rs:80 | the `lcm` that `vector_lcm` folds: the product of one argument and the other over their gcd; LcmMultiple states it is a multiple of both |
| Day8b.LcmMultiple | src/day8b.rs:80 | the lcm is a multiple of both arguments |
| Day8b.GcdScale | src/day8b.rs:80 | scaling both arguments scales their gcd by the same factor |
| Day8b.CoprimeQuotients | src/day8b.rs:80 | dividing both arguments by their gcd leaves coprime quotients |
| Day8b.CoprimeDivides | src/day8b.rs:80 | a number dividing a product and coprime to one factor divides the other |
| Day8b.LcmLeast | src/day8b.rs:80 | every common multiple of both arguments is a multiple of the lcm, so it is the least one |
| Day8b.ListLcmMultiple | src/day8b.rs:77-84 | the folded lcm of the counts is a multiple of every count |
| Day8b.ListLcmLeast | src/day8b.rs:77-84 | the folded lcm divides every common multiple of the counts |
| Day8b.VectorLcm | src/day8b.rs:77-84 | `vector_lcm` folds lcm over the list from its first element, and the result is a multiple of every element that divides every common multiple: the least common multiple; the source unwraps the first element, so the list is non-empty |
| Day9.Diffs | src/day9.rs:5 | one difference fewer than there are values, none for a single value |
| Day9.Predict | src/day9.rs:3-12 | `predict_next`: the last value plus the prediction for the differences, stopping when the differences are all 0; PredictConstant, PredictArithmetic, PredictExtendsDifferences and PredictNegate state its properties |
| Day9.PredictConstant | src/day9.rs:3-12 | a constant sequence predicts its constant |
| Day9.PredictArithmetic | src/day9.rs:3-12 | an arithmetic sequence predicts its last element plus the step |
| Day9.PredictExtendsDifferences | src/day9.rs:3-12 | appending the prediction grows the difference row by the prediction for the differences, or by 0 when they are flat: the next row of the difference table is extended consistently |
| Day9.DiffsAppend | src/day9.rs:5 | appending a value adds one difference, the new value minus the old last one |
| Day9.PredictNegate | src/day9.rs:3-12 | negating the input negates the prediction |
| Day9.ReversedDiffs | src/day9.rs:5-7 | the differences of the reversed sequence are the reversed differences negated, flat exactly when the original ones are |
| Day9.PredictReversed | src/day9.rs:21-22 | predicting the next value of the reversed sequence extrapolates the value before the first element |
| Day9.LineResult | src/day9.rs:21-22 | the value a line contributes is the backward extrapolation of its numbers |
| Shoelace.Area | src/day10.rs:231-245 | the area is half the absolute closed shoelace sum, rounded down |
| Shoelace.CrossAntisymmetric | src/day10.rs:237-238 | swapping the ends of an edge negates its cross term |
| Shoelace.PathSumTail | src/day10.rs:236-239 | the open path's sum splits into its first edge and the rest |
| Shoelace.PathSumRotatedPrefix | src/day10.rs:236-239 | the rotated polygon's open path agrees with the original from its second point |
| Shoelace.RotateClosedSum | src/day10.rs:231-245 | starting the boundary at another corner does not change the closed sum |
| Common.Reverse | src/day10.rs:229-248 | the sequence read back to front: the route or boundary walked the other way round |
| Shoelace.PathSumReversed | src/day10.rs:236-239 | the reversed open path's sum is minus the matching stretch of the original |
| Shoelace.ReverseClosedSum | src/day10.rs:231-245 | walking the boundary the other way negates the closed sum and keeps the area |
| Shoelace.Translate | src/day18.rs:36-57 | the boundary moved by an offset |
| Shoelace.CrossTranslated | src/day10.rs:237-238 | moving an edge changes its cross term by one term per end |
| Shoelace.PathSumTranslated | src/day10.rs:236-239 | the moved open path's sum telescopes to the original plus terms for its first and last point |
| Shoelace.TranslateClosedSum | src/day18.rs:59-78 | moving the whole polygon does not change the closed sum, so the dig's starting point does not change the area |
| Day10.CharToSegment | src/day10.rs:21-33 | exactly the eight map characters give a pipe segment, and each segment is written with its character; any other character is an error where the source panics |
| Day10.SegmentCharRoundTrip | src/day10.rs:21-33 | reading back a segment's character gives the same segment |
| Day10.Delta | src/day10.rs:84-91 | each direction moves exactly one row or one column |
| Day10.Traverse | src/day10.rs:36-70 | the direction a pipe sends a walker travelling one way, or none when it cannot be entered that way; BendTraversal and BendReversible state its properties |
| Day10.DeltaOpposite | src/day10.rs:84-91 | opposite directions have opposite deltas |
| Day10.BendTraversal | src/day10.rs:36-70 | a bend can be entered exactly when travelling towards one of its openings, and the walk then leaves through the other opening |
| Day10.BendReversible | src/day10.rs:36-70 | a bend walked one way can be walked back the other way |
| Day10.NextLocation | src/day10.rs:139-153 | the neighbour is the location moved by the direction's delta, and there is none exactly when that would leave the map at the top or the left |
| Day10.NextLocationInverse | src/day10.rs:139-153 | stepping back the opposite way returns to where the step started |
| Day10.ConnectsBackOpening | src/day10.rs:162-174 | the start direction tables accept exactly the pipes that are open on the side facing the start |
| Day10.ScanPanicStays | src/day10.rs:158-177 | once the scan has met a location outside the map (a panic in the source), later directions do not change the outcome |
| Day10.FindStartingDirection | src/day10.rs:154-180 | the loop over North, East, South, West computes the scan of all four directions |
| Day10.ScanIsLastConnecting | src/day10.rs:154-180 | the start direction is the last of the four directions whose neighbour connects back to the start, or North when none does |
| Day10.FindPipeRoute | src/day10.rs:182-203 | the loop of `find_pipe_route` pushes the start, then every location walked until the next one is the start again, reporting where the source panics |
| Day10.TraceIsChain | src/day10.rs:193-200 | a walk that ends is a chain of neighbouring locations that ends next to the start and does not pass the start |
| Day10.RouteIsLoop | src/day10.rs:182-203 | a found route has at least two locations, starts at the start, goes from neighbour to neighbour, ends next to the start and visits the start only once: it is a closed loop |
| Day10.FarthestSteps | src/day10.rs:212 | part one's answer is half the route's length, rounded down |
| Day10.AsPoints | src/day10.rs:236-243 | each location becomes the point (column, row), in route order |
| Day10.GetInteriorPointCount | src/day10.rs:229-248 | the two sums and the wrap pair compute the shoelace area, and the result is Pick's theorem: area minus half the boundary points plus one |
| Day10.InteriorIndependentOfStart | src/day10.rs:229-248 | the interior count does not depend on which point of the loop the route starts at, nor on the direction it goes round |
| Day11.SpaceFromChar | src/day11.rs:14-20 | `.` is empty space, `#` a galaxy, and any other character an error where the source panics |
| Day11.ExpandLines | src/day11.rs:57-63 | every line of the expansion is a line of the input |
| Common.Transpose | src/day11.rs:57 | the columns of a rectangular grid: cell (c, k) of the result is cell (k, c) of the rows |
| Day11.ExpandLinesLoop | src/day11.rs:57-63 | the loop pushes every line, and pushes an empty line twice |
| Day11.ExpandUniverse | src/day11.rs:55-77 | `expand_universe` doubles the empty columns, then the empty rows of the column-expanded image |
| Day11.ExpandLinesLength | src/day11.rs:57-63 | doubling adds one line per empty line |
| Day11.ExpandLinesSameLines | src/day11.rs:57-63 | doubling adds no new kind of line and drops none |
| Day11.RowEmptyAfterColumns | src/day11.rs:65-74 | a row of the column-expanded image is empty exactly when the original row is |
| Day11.ExpandSize | src/day11.rs:55-77 | the expanded image is as wide as the image plus its empty columns and as high as the image plus its empty rows |
| Day11.ExpandLinesCount | src/day11.rs:57-63 | doubling only empty lines keeps the number of galaxies |
| Day11.TransposeCount | src/day11.rs:57-65 | switching between rows and columns keeps the number of galaxies |
| Day11.ExpandCount | src/day11.rs:55-77 | the expansion keeps the number of galaxies |
| Day11.FindGalaxies | src/day11.rs:79-92 | the row-major scan lists the galaxies of the image |
| Day11.GalaxiesInLineExact | src/day11.rs:82-89 | the galaxies listed for a line are exactly its galaxy cells, in increasing column order |
| Day11.GalaxiesExact | src/day11.rs:79-92 | the listed locations are galaxy cells, in row-major order, every galaxy cell is listed, and there are as many as the image has galaxies |
| Day11.Manhattan | src/day11.rs:102 | the distance of two galaxies is zero exactly when they are at the same location |
| Day11.ManhattanSymmetric | src/day11.rs:102 | the order within a pair does not matter |
| Day11.ManhattanTriangle | src/day11.rs:102 | going through a third galaxy is never shorter |
| Day11.InPairsFrom | src/day11.rs:98-104 | the distance of every later galaxy j from galaxy i is among the distances pushed for galaxy i |
| Day11.FindDistances | src/day11.rs:94-107 | the loop over `combinations(2)` lists the distance of each pair (i, j) with i < j, in lexicographic order |
| Day11.PushPairsFrom | src/day11.rs:98-104 | the combinations whose first galaxy is galaxy i are pushed in order of the second galaxy, each with its Manhattan distance |
| Day11.PairCountFormula | src/day11.rs:98 | pairs from the first k galaxies of n number k(2n-1-k)/2 |
| Day11.PairsUpToLength | src/day11.rs:98-104 | the list holds one distance per pair |
| Day11.PairsCount | src/day11.rs:98-104 | n galaxies give n(n-1)/2 distances |
| Day11.PairListed | src/day11.rs:98-104 | the distance of every pair of galaxies is in the list |
| Day11.Run | src/day11.rs:109-120 | the galaxies found after expansion are as many as before it, there are n(n-1)/2 distances, and the total is their sum |
| Day13.EntryFromChar | src/day13.rs:13-19 | `#` is rock, `.` is ash, any other character an error where the source panics |
| Day13.DiffCount | src/day13.rs:45-58 | the number of differing positions is at most the line's length |
| Day13.LineDifferenceCount | src/day13.rs:45-58 | the loop counts the positions of the first line at which the second holds something else; the second line is at least as long, where the source's unwrap would panic |
| Day13.DiffCountZero | src/day13.rs:45-58 | lines of the same length differ nowhere exactly when they are equal |
| Day13.DiffCountPrefix | src/day13.rs:50-51 | only as many cells of the second line are read as the first line has |
| Day13.DiffCountSymmetric | src/day13.rs:45-58 | for lines of the same length the count does not depend on which line is walked |
| Day13.Reach | src/day13.rs:35-40 | the number of mirrored pairs the `while (a >= 0) && (b < len)` loop visits: every pair inside the note, at least one when the mirror is inside, and it stops at the first edge |
| Day13.PerfectUpToStep | src/day13.rs:35-40 | each turn ands the next pair's equality into the result |
| Day13.Perfect | src/day13.rs:30-43 | every mirrored pair of lines about the position is equal; IsReflectionPerfect is the loop proved to compute it |
| Day13.IsReflectionPerfect | src/day13.rs:30-43 | the result is true exactly when every mirrored pair of lines within the note is equal (line hashes are modelled by the lines themselves) |
| Day13.IsReflectionWithSingleSmudge | src/day13.rs:60-76 | the result is true exactly when the differences summed over all mirrored pairs come to exactly one |
| Day13.Smudged | src/day13.rs:60-76 | the differences summed over the mirrored pairs come to exactly one; IsReflectionWithSingleSmudge is the loop proved to compute it, PerfectIsNotSmudged relates it to Perfect |
| Day13.SmudgeSumZero | src/day13.rs:66-73 | the pairs add no difference exactly when they are all equal |
| Day13.PerfectIsNotSmudged | src/day13.rs:30-76 | a mirror is perfect exactly when its pairs add no difference, so no mirror is both perfect and smudged |
| Day13.SmudgeSumGrows | src/day13.rs:66-73 | later pairs only add differences |
| Day13.MirrorsAreCandidates | src/day13.rs:86-95 | every perfect or smudged mirror position passes the neighbour test of the first loop, so checking only the candidates loses no mirror |
| Day13.PushCandidate | src/day13.rs:86-95 | one step of the first loop adds position p exactly when line p + 1 repeats line p or differs from it in one cell |
| Day13.CandidatesExact | src/day13.rs:86-95 | the candidate positions are exactly the positions whose two neighbouring lines are equal or differ in one cell, in increasing order |
| Day13.FirstMirror | src/day13.rs:97-109 | the answer is a mirror position within the note and no earlier position is a mirror of that kind |
| Day13.FirstMirrorAmong | src/day13.rs:97-109 | the loop over the candidates stops at the first mirror, which is the first mirror position of the note |
| Day13.NoEarlierMirror | src/day13.rs:97-109 | when none of the first i candidates is a mirror, none of the positions before candidate i is |
| Day13.FindReflection | src/day13.rs:78-112 | `find_reflection` returns the first perfect and the first smudged mirror position; the note has at least one line, which the source unwraps |
| Day13.SummariseNote | src/day13.rs:124-141 | one note adds the vertical mirror position plus one and a hundred times the horizontal one plus one, the perfect mirrors in part one and the smudged ones in part two |
| Day14.CellFromChar | src/day14.rs:17-24 | exactly `O`, `#` and `.` give a cell, each written back with the same character; any other character is an error where the source panics |
| Day14.CellCharRoundTrip | src/day14.rs:17-31 | `to_char` then `from_char` gives the same cell |
| Day14.TrailingEmpty | src/day14.rs:68-77 | the run of empty cells at the end of a line, stopped by the first rock |
| Day14.Tilt | src/day14.rs:63-79 | a line tilted towards its start, each round rock settled in turn; TiltLine is the in-place loop proved to compute it, TiltPacked, TiltKeepsCubes, TiltKeepsCells and TiltIdempotent state its properties |
| Day14.TiltLine | src/day14.rs:63-79 | the in-place loops of `tilt_platform` on one line leave exactly the tilted line |
| Day14.RollRock | src/day14.rs:67-78 | the inner loop moves the round rock at i over the empty cells before it, stops at the first rock, and leaves the cells after i alone |
| Day14.TiltCell | src/day14.rs:66-79 | after the cell at i is handled the cells up to i are the tilt of the original ones and the cells after i are untouched |
| Day14.TiltPacked | src/day14.rs:63-79 | after a tilt no round rock has empty ground before it |
| Day14.TiltKeepsCubes | src/day14.rs:63-79 | a tilt moves no cube rock |
| Day14.SettleKeepsCubes | src/day14.rs:67-78 | a round rock rolling down moves no cube rock and does not come to rest on one |
| Day14.TiltKeepsCells | src/day14.rs:63-79 | a tilt keeps every cell: the same rocks and empty cells in another order |
| Day14.PackedStays | src/day14.rs:63-79 | a line with no round rock after empty ground does not move |
| Day14.TiltIdempotent | src/day14.rs:63-79 | tilting twice the same way is tilting once |
| Common.ReverseReverse | src/day14.rs:60-83 | reversing before and after the tilt restores the line's orientation |
| Common.ReverseMultiset | src/day14.rs:60-83 | reversing a line keeps every cell, so the tilt of a reversed line keeps the line's cells |
| Day14.TiltedPlatform | src/day14.rs:50-92 | a tilted platform keeps its size |
| Day14.TiltPlatform | src/day14.rs:50-92 | `tilt_platform` takes columns for north and south and rows for east and west, reverses the line for south and east, tilts it and puts the lines back |
| Day14.TiltOneLine | src/day14.rs:59-87 | one line copied, reversed for south and east, tilted in place and reversed back is the line tilted that way |
| Day14.TiltTowardsKeeps | src/day14.rs:59-86 | a tilt either way keeps a line's length, its cube rocks and its multiset of cells |
| Day14.TiltTowards | src/day14.rs:59-86 | a line tilted towards its start for north and west, and reversed, tilted and reversed back for south and east; TiltOneLine computes it, TiltTowardsKeeps, TiltTowardsPacked and TiltTowardsIdempotent state its properties |
| Day14.TiltTowardsPacked | src/day14.rs:59-86 | a line tilted one way has no round rock with empty ground on that side |
| Day14.TiltTowardsIdempotent | src/day14.rs:59-86 | a line tilted one way stays put when tilted the same way again |
| Common.TransposeTwice | src/day14.rs:55-90 | taking the columns and building the grid from them gives the grid back |
| Day14.TiltedLines | src/day14.rs:50-92 | the lines of the tilted platform are the tilted lines |
| Day14.TiltPlatformKeepsCubes | src/day14.rs:50-92 | a tilt keeps the platform's size and moves no cube rock |
| Day14.TiltPlatformKeepsRocks | src/day14.rs:50-92 | every line the tilt works on keeps its cells, so its number of round rocks |
| Day14.TiltPlatformPacked | src/day14.rs:50-92 | after a tilt no round rock has empty ground next to it on the side it was tilted to |
| Day14.TiltPlatformIdempotent | src/day14.rs:50-92 | tilting the platform twice the same way is tilting it once |
| Day14.ColumnForce | src/day14.rs:98-102 | enumerating the column from the bottom weighs each round rock by its distance from the south edge (row r of n weighs n - r) |
| Day14.GetTotalForce | src/day14.rs:94-106 | the total force is the sum of the column loads |
| Day15.CharStep | src/day15.rs:18-22 | one step adds the character's code, multiplies by 17 and keeps the remainder modulo 256, so the state stays below 256 |
| Day15.HashFrom | src/day15.rs:24-28 | `hash_str` from a given state: one CharStep per character in order; HashFromAppend and HashBound state its properties |
| Day15.Hash | src/day15.rs:18-32 | the hash of a string from state 0; HashOf ties the hasher object to it, HashBound bounds it below 256 |
| Day15.HashFromAppend | src/day15.rs:24-28 | hashing a string piece by piece is hashing the whole string |
| Day15.HashBound | src/day15.rs:18-32 | the hash of any string is a box number below 256 |
| Day15.AocHash.constructor | src/day15.rs:11-13 | a new hasher starts at 0 |
| Day15.AocHash.Initialise | src/day15.rs:14-16 | `initialise` resets the state to 0 |
| Day15.AocHash.HashChar | src/day15.rs:18-22 | `hash_char` moves the state one hashing step on |
| Day15.AocHash.HashStr | src/day15.rs:24-28 | `hash_str` moves the state on by every character in turn |
| Day15.AocHash.Finish | src/day15.rs:30-32 | `finish` returns the state, which fits a byte |
| Day15.HashOf | src/day15.rs:44-47 | a fresh, initialised hasher fed a string finishes with that string's hash |
| Day15.SumOfHashes | src/day15.rs:36-53 | part one is the sum of the items' hashes, below 256 per item |
| Day15.Label | src/day15.rs:68-69 | the label keeps exactly the item's characters other than `-`, `=` and digits |
| Day15.RemoveLens | src/day15.rs:84 | after `shift_remove` no lens in the box has the label |
| Day15.InsertLens | src/day15.rs:88 | after `insert` the box holds a lens with the label |
| Day15.RemoveLensSlot | src/day15.rs:84 | removing a label closes its slot's gap and keeps the other lenses in order; an absent label changes nothing; labels stay unique |
| Day15.RemoveKeepsLenses | src/day15.rs:84 | removing only ever drops lenses |
| Day15.InsertLensSlot | src/day15.rs:88 | inserting a present label replaces the focal length in its slot; a new label goes at the back; labels stay unique |
| Day15.InsertKeepsLabels | src/day15.rs:88 | inserting adds no lens other than the new one |
| Day15.ApplyCommandValid | src/day15.rs:67-103 | each step keeps box numbers below 256, labels unique within a box and every lens in the box its label hashes to |
| Day15.LensBoxes.constructor | src/day15.rs:61 | the boxes start empty |
| Day15.LensBoxes.Apply | src/day15.rs:67-103 | one item removes the label from its box when the box exists, or stores the lens, in a new box when there is none; the boxes stay valid |
| Day15.CalculateTotalPower | src/day15.rs:111-125 | for box numbers in the `u8` range, the total is the sum over boxes and slots of (box + 1) * (slot + 1) * focal length |
| Day15.BoxTotal | src/day15.rs:119-121 | the inner loop adds (box + 1) * (slot + 1) * focal length over the slots of one box, in slot order |
| Day15.BoxPowerFactor | src/day15.rs:120 | a box's power is its number plus one times the slot-weighted sum of its focal lengths |
| Day15.RemoveAbsentChangesNothing | src/day15.rs:78-94 | removing a label that no box holds changes nothing |
| Day16.TravelIncrement | src/day16.rs:18-25 | each direction moves exactly one row or one column |
| Day16.Opposite | src/day16.rs:18-25 | the reverse direction has the opposite step |
| Day16.CellFromChar | src/day16.rs:38-47 | each of `.`, `\`, `/`, `|` and `-` gives its cell type, and any other character is an error where the source panics |
| Day16.TravelThroughCell | src/day16.rs:49-87 | light leaves a cell in one or two directions, and two only when they differ |
| Day16.MirrorReversible | src/day16.rs:57-73 | a mirror turns light through a right angle, and light sent back the way it left comes out the way it came in, reversed |
| Day16.SplitterAlongAxis | src/day16.rs:75-87 | a splitter sends light only along its own axis, and light already travelling along that axis passes straight through |
| Day16.TranslateLightBeam | src/day16.rs:89-103 | one beam per direction the cell sends the light, each moved one step that way |
| Day16.TranslateIsOneStep | src/day16.rs:89-103 | every beam a cell sends on is one step from the cell |
| Day16.ClosedHoldsReach | src/day16.rs:148-167 | any set of beams that holds the start and is closed under moving on holds every beam reachable from the start |
| Day16.ClosedStep | src/day16.rs:148-167 | one more move from the beams of a closed set stays inside the set |
| Day16.ReachStep | src/day16.rs:158-163 | a beam sent on from a reachable beam, inside the grid, is reachable |
| Day16.ReachInStep | src/day16.rs:158-163 | a beam sent on from a beam reached in n moves, inside the grid, is reached in n + 1 moves |
| Day16.ProcessBeam | src/day16.rs:150-164 | one beam marks its cell when it is inside the grid and, the first time it is seen, is added to the history and sends on its beams; nothing else changes |
| Day16.TraceBeams | src/day16.rs:137-167 | the worklist loop ends with the history holding exactly the beams reachable from the top-left corner travelling right, and the marked cells are exactly their cells |
| Day16.ProcessRound | src/day16.rs:149-166 | one round processes every beam of the round and keeps the history reachable and the marks in step with it |
| Day16.ProcessNext | src/day16.rs:150-165 | one turn of the inner loop keeps the history within the grid's beams, keeps every beam to be sent on in the history or waiting, keeps every visited and waiting beam reachable and keeps the marks equal to the cells of the history |
| Day16.CellsAdd | src/day16.rs:151 | marking a visited beam's cell adds exactly that cell to the cells passed through |
| Day16.PendingStep | src/day16.rs:150-165 | after each beam every beam still to be sent on is in the history or waiting |
| Day16.ReachableStep | src/day16.rs:150-165 | after each beam every visited and every waiting beam is reachable |
| Day16.FewerUnvisited | src/day16.rs:158-159 | visiting a new beam leaves fewer beams unvisited, so the worklist loop ends |
| Day16.FindActivatedCellCount | src/day16.rs:136-182 | the count is the number of cells crossed by some beam reachable from the start; it is at most rows times columns, and at least 1 on a non-empty grid, where the start cell is always counted |
| Day16.CellsWithinGrid | src/day16.rs:137-144 | the reachable beams cross at most rows times columns cells, the cells the counting loop visits |
| Day16.CountActive | src/day16.rs:181 | counting the marked cells gives the number of marked cells |
| Day17.Go | src/day17.rs:43-51 | each direction moves exactly one row or one column |
| Day17.Opposite | src/day17.rs:43-51 | the opposite direction is another direction with the opposite step |
| Day17.GoOpposite | src/day17.rs:43-51 | two steps cancel exactly when the directions are opposite |
| Day17.Keep | src/day17.rs:144-150 | the history keeps its last n entries, in order, or all of them when it is shorter |
| Day17.EveryDirection | src/day17.rs:65 | the list of all four directions misses none |
| Day17.Turns | src/day17.rs:65-73 | at the start every direction is offered, afterwards every direction but the reverse of the heading, each once |
| Day17.RemoveFirst | src/day17.rs:79-81 | `find_position` then `remove` drops one entry when it is present and otherwise changes nothing |
| Day17.RemoveFirstExact | src/day17.rs:79-81 | in a list without duplicates, removing a direction leaves exactly the other entries |
| Day17.PartANextSteps | src/day17.rs:61-86 | `part_a_next_steps`: the turns allowed from the heading, without the direction of three equal last moves; PartANextStepsExact and PartANoFourthStep state what it offers |
| Day17.PartBNextSteps | src/day17.rs:88-119 | `part_b_next_steps`: straight on until four equal moves, then the turns allowed, without the direction of ten equal moves; PartBNextStepsExact states what it offers |
| Day17.PartANextStepsExact | src/day17.rs:61-86 | part one offers every direction but the reverse of the heading, and not the direction of the last three moves when those all went the same way, each at most once |
| Day17.PartBNextStepsExact | src/day17.rs:88-119 | part two keeps going the last way until the last four moves went the same way; after that it offers every direction but the reverse, and not the way of a run of ten |
| Day17.TenIsFour | src/day17.rs:103-116 | ten equal moves are also four equal moves, so the ten-move cap is reachable |
| Day17.SuccessorsUpTo | src/day17.rs:133-160 | the loop keeps at most one successor per step |
| Day17.SuccessorsUpToExact | src/day17.rs:133-160 | every successor is a move along one of the steps, and every step that stays on the grid gives a successor |
| Day17.SuccessorsExact | src/day17.rs:121-163 | the successors are exactly the moves along the allowed steps that stay on the grid |
| Day17.UpdatedHistory | src/day17.rs:144-150 | the new history is the step appended and only the last three (part one) or ten (part two) kept |
| Day17.CartStateAfter | src/day17.rs:134-159 | one turn of the loop gives the successor the step leads to with the weight of its cell, or none when it leaves the grid |
| Day17.NextCartStates | src/day17.rs:121-163 | `next_cart_states` lists the successors in the order of the allowed steps |
| Day17.MoveConsistent | src/day17.rs:133-160 | a move along an allowed step keeps the history consistent with the heading, goes one cell, and never straight back |
| Day17.SuccessorsConsistent | src/day17.rs:121-163 | every successor of a consistent state is consistent, has a heading and stands one cell away, never straight back the way it came |
| Day17.PartANoFourthStep | src/day17.rs:75-83 | a part-one cart whose last three moves went the same way must turn |
| Day17.SuccessCheckPartA | src/day17.rs:165-167 | success is being at the target |
| Day17.SuccessCheckPartB | src/day17.rs:169-172 | success holds exactly when the cart is at the target and its last (up to) four moves all go the same way: four equal moves at the target succeed, and so do one to three equal moves, which is the whole history that `rchunks(4)` yields; a cart at the target has moved, as the source unwraps its history |
| Day18.DirectionFromChar | src/day18.rs:14-23 | `U`/`3`, `D`/`1`, `L`/`2` and `R`/`0` give up, down, left and right, each an if-and-only-if, and any other character is an error where the source panics |
| Day18.DirectionRoundTrip | src/day18.rs:14-23 | both the letter and the digit of a direction read back as that direction |
| Day18.BoundaryPoints | src/day18.rs:36-57 | one corner more than there are instructions |
| Day18.BoundaryPointsShape | src/day18.rs:36-57 | the corner list starts at the origin and each corner is the previous one moved by the next instruction |
| Day18.DigDistance | src/day18.rs:44-49 | an instruction moves the digger its step count along one axis and leaves the other coordinate alone |
| Day18.GenerateBoundaryPointList | src/day18.rs:36-57 | the loop returns the corner list and the sum of the step counts |
| Day18.GetInteriorPointCount | src/day18.rs:59-78 | the shoelace sums over all corners but the closing one give the polygon's area, and the interior count is Pick's theorem applied to it |
| Day18.PathSumPrefix | src/day18.rs:66-69 | the open path over a prefix of the corners agrees with the path over all of them |
| Day18.ClosedLoopArea | src/day18.rs:62 | when the plan returns to the start, leaving out the closing corner gives the area of the full corner list |
| Day18.HalfTowardZero | src/day18.rs:127 | halving an `i64` rounds toward zero, for negative values too |
| Day18.LagoonVolume | src/day18.rs:119-135 | the answer is the area of the loop plus half the trench length plus one |
| Day18.HexDigitValue | src/day18.rs:111 | a hexadecimal digit has a value below 16 |
| Day18.HexDigitChar | src/day18.rs:111 | every value below 16 has a hexadecimal digit that reads back as that value |
| Day18.FromStrRadix16 | src/day18.rs:111 | an unsigned string is read as its value, most significant first, exactly when it is all hexadecimal digits, and is an error otherwise; the empty string is an error |
| Day18.TrimStartMatches | src/day18.rs:106 | after trimming, the string no longer starts with the pattern |
| Day18.TrimEndMatches | src/day18.rs:106 | after trimming, the string no longer ends with the character |
| Day18.TrimStartIsSuffix | src/day18.rs:106 | trimming at the start keeps a suffix of the string |
| Day18.TrimEndIsPrefix | src/day18.rs:106 | trimming at the end keeps a prefix and removes only copies of the character |
| Day18.DecodeColour | src/day18.rs:106-113 | a decoded instruction comes from a code of at least six characters: the first five read in hexadecimal as its step count, the sixth as its direction, with an empty colour; a shorter or bad code is an error where the source panics |
| Day18.HexString | src/day18.rs:111 | k hexadecimal digits |
| Day18.HexStringValue | src/day18.rs:111 | reading back the k hexadecimal digits of a number below 16^k gives the number |
| Day18.DecodeColourRoundTrip | src/day18.rs:106-113 | decoding the colour code `(#nnnnnd)` written for a move gives that move back |
| Day18.DecodeInstruction | src/day18.rs:106-113 | one turn of the loop decodes exactly when the colour decodes, and gives the decoded instruction |
| Day18.PartBGetInstructions | src/day18.rs:102-117 | every instruction is replaced, in order, by the one its colour code holds; it fails exactly when some code does not decode |
| Day19.TestOperationFromChar | src/day19.rs:14-20 | `>` and `<` give their test, each an if-and-only-if, and any other character is an error where the source panics |
| Day19.NameRunEnd | src/day19.rs:33-34 | the run of name characters the patterns' `[a-zAR]+` matches from a position ends at the first other character |
| Day19.NameRunEndAt | src/day19.rs:33-34 | a run of name characters followed by another character ends there |
| Day19.RuleFromStr | src/day19.rs:32-53 | a conditional rule comes from a text `name`, `<` or `>`, digits, `:`, `outcome` (ConditionAt): it tests the name's first character with that operator against the value of the digits and has the text after `:` as its outcome; a rule without a condition comes from a bare name, which is its outcome |
| Day19.RuleFromStrCondition | src/day19.rs:33-42 | every text matching the conditional pattern parses, as the rule its parts spell |
| Day19.RuleFromStrBareName | src/day19.rs:34-48 | every non-empty name parses as a rule without a condition, with the name as outcome |
| Day19.RuleFromStrNone | src/day19.rs:36-52 | the parse fails, where the source panics, exactly when the text matches neither pattern |
| Day19.FormatRuleRoundTrip | src/day19.rs:32-53 | reading back a rule written as `p<v:o`, `p>v:o` or `o` gives that rule |
| Day19.Assign | src/day19.rs:106-112 | setting a rating changes that rating and no other |
| Day19.GetByChar | src/day19.rs:86-94 | `Item::get_by_char`: the rating a letter names; RatingsDetermineItem and Assign state that the four letters read the four ratings independently |
| Day19.RatingsDetermineItem | src/day19.rs:86-94 | parts that `get_by_char` reads alike on all four letters are the same part |
| Day19.GetItemSum | src/day19.rs:96-98 | `Item::get_item_sum`: the four ratings `get_by_char` reads, added up |
| Day19.ItemSumAssign | src/day19.rs:96-112 | setting one rating changes the rating sum by the difference between the new and the old value |
| Day19.AssignOwnRating | src/day19.rs:86-112 | setting a rating to the value it already has leaves the part unchanged |
| Day19.ParseProperty | src/day19.rs:103-112 | a property names one of `x`, `m`, `a`, `s` with its first character and holds the number after its first two characters; a short property, a bad number or another letter is an error where the source panics |
| Day19.ItemFromFails | src/day19.rs:103-113 | once a property fails, the whole item does |
| Day19.ItemFromUnmentioned | src/day19.rs:100-115 | a rating no property mentions stays 0 |
| Day19.ItemFromLastWins | src/day19.rs:103-113 | a rating holds the value of the last property that names it |
| Day19.ItemFromStr | src/day19.rs:100-115 | `Item::from_str` starts from all ratings 0 and sets one rating per comma-separated property, in order |
| Day19.ApplyRule | src/day19.rs:55-69 | a rule without a condition always gives its outcome; a `>` rule gives it exactly when the rating is greater than the test value, a `<` rule exactly when it is smaller; otherwise nothing |
| Day19.FilterFrom | src/day19.rs:150-158 | an outcome is the outcome of the first rule that applies |
| Day19.FilterFromFirst | src/day19.rs:150-158 | when rule i is the first that applies, its outcome is the workflow's outcome |
| Day19.RunFilter | src/day19.rs:150-158 | `run_filter` tries the rules in order and returns the first outcome; some rule must apply, as the source panics otherwise |
| Day19.ChainEnd | src/day19.rs:164-167 | a chain of workflows that ends, ends at `A` or `R` |
| Day19.ChainEndMoreFuel | src/day19.rs:165-167 | the step bound only decides chains that the source would not end: with more fuel a finished chain ends the same way |
| Day19.RunChain | src/day19.rs:164-167 | the inner loop follows the workflows from `in` until `A` or `R` |
| Day19.SumAcceptedFails | src/day19.rs:163-171 | once one part's chain fails, the whole sum does |
| Day19.SumAcceptedStep | src/day19.rs:163-171 | each part adds its rating sum when its chain ends at `A` and nothing when it ends at `R` |
| Day19.SumAcceptedBounds | src/day19.rs:160-174 | with non-negative ratings the accepted sum lies between 0 and the sum over all parts |
| Day19.FilterItemsSumAccepted | src/day19.rs:160-174 | `filter_items_sum_accepted` adds the rating sums of the accepted parts |
| Day21.FromCharacter | src/day21.rs:15-22 | `S`, `.` and `#` give the start, a garden plot and rocks, each an if-and-only-if, and any other character is an error where the source panics |
| Day21.Neighbour | src/day21.rs:60-63 | each delta leads to an adjacent position |
| Day21.NextStepsUpTo | src/day21.rs:62-71 | at most one position per delta tried |
| Day21.NextStepsUpToMembers | src/day21.rs:62-71 | the positions listed from the first k deltas are exactly the walkable positions those deltas reach |
| Day21.NextStepsUpToDistinct | src/day21.rs:62-71 | different deltas lead to different positions, so no position is listed twice |
| Day21.NextStepsExact | src/day21.rs:58-74 | `get_next_steps` lists exactly the walkable positions adjacent to the position, each once, at most four |
| Day21.NextSteps | src/day21.rs:58-74 | `get_next_steps`: the walkable neighbours tried in the order of the deltas; NextStepsExact states they are exactly the walkable adjacent positions, each once |
| Day21.GetNextSteps | src/day21.rs:58-74 | the loop tries east, west, south and north in turn and keeps the positions inside the map that are a plot or the start |
| Day21.Unique | src/day21.rs:94 | `unique` keeps every position once, and only positions of the list |
| Day21.DistinctCard | src/day21.rs:94-97 | a list without repeats counts its set of positions |
| Day21.NextLayer | src/day21.rs:84-93 | the cached neighbour lists stay correct, and the next layer holds exactly the neighbours of the frontier |
| Day21.StepAppend | src/day21.rs:85-93 | extending the frontier by one position adds that position's neighbours to the next layer |
| Day21.FindPositionsAfterSteps | src/day21.rs:76-98 | the count is the number of positions reachable in exactly `steps` steps; with `steps` 0 the loop does not run and the count is that of one step, as in the source |
| Day21.LayerWithinPlots | src/day21.rs:76-98 | every position reached is a plot or the start, so the count is at most their number |
| Day21.LayerWalkable | src/day21.rs:76-98 | every position reached is walkable |
| Day21.LayerParity | src/day21.rs:76-98 | the positions reached after n steps have the parity of the start's row plus column plus n |
| Day22.MinOfLeast | src/day22.rs:45-67 | the `min` fold from `i32::MAX` is at most every end's coordinate, and is one of them unless the brick has no ends |
| Day22.MinOf | src/day22.rs:45-67 | the `min` fold over the ends on one axis, from `i32::MAX`; MinOfLeast states it is the least coordinate |
| Day22.MaxOf | src/day22.rs:69-91 | the `max` fold over the ends on one axis, from 0; MaxOfGreatest states it is the greatest coordinate or 0 |
| Day22.MaxOfGreatest | src/day22.rs:69-91 | the `max` fold from 0 is at least every end's coordinate and at least 0, and is one of them unless it is 0 |
| Day22.Brick.MinCoord | src/day22.rs:45-67 | `min_x`, `min_y` and `min_z` compute the least coordinate of the ends on that axis, starting from `i32::MAX` |
| Day22.Brick.MaxCoord | src/day22.rs:69-91 | `max_x`, `max_y` and `max_z` compute the greatest coordinate on that axis, starting from 0 |
| Day22.ParseEnds | src/day22.rs:20-30 | one end per '~'-separated part of the line |
| Day22.ParseEndRoundTrip | src/day22.rs:24-29 | an end written as `x,y,z` reads back as the same end |
| Day22.FromStrRoundTrip | src/day22.rs:20-35 | a brick written as its ends joined by '~' parses back to the same ends |
| Day22.Brick.FromStr | src/day22.rs:20-35 | the new brick has the given id and exactly the parsed ends, in order; the source panics unless every part starts with three integers |
| Day22.Brick.Copy | src/day22.rs:13-17 | a clone has the same id and ends |
| Day22.Brick.SetBaseZ | src/day22.rs:37-43 | every end moves up or down by the same amount, the amount that brings the lowest end to the target |
| Day22.ShiftZ | src/day22.rs:37-43 | every end moved by the same amount along z; ShiftMin, ShiftMax and ShiftKeepsXY state its effect |
| Day22.ShiftMin | src/day22.rs:37-43 | after `set_base_z` the brick's lowest point is the target |
| Day22.ShiftMax | src/day22.rs:37-43 | after `set_base_z` the brick keeps its height |
| Day22.ShiftKeepsXY | src/day22.rs:37-43 | `set_base_z` leaves the x and y extents unchanged |
| Day22.Brick.OverlapsXY | src/day22.rs:97-99 | the test is true when the x-ranges meet or the y-ranges meet |
| Day22.RangesMeet | src/day22.rs:97-98 | `max(lo1, lo2) <= min(hi1, hi2)` holds exactly when some value lies in both closed ranges |
| Day22.Brick.GetXyOverlappingBricks | src/day22.rs:93-105 | the result holds fresh copies of the given bricks that overlap, in the given order |
| Day22.OverlappingExact | src/day22.rs:93-105 | a brick is in the result if and only if it is one of the given bricks and overlaps, and the result is no longer than the input |
| Day22.ZeroGrid | src/day22.rs:114-115 | the collision grid is 3 by 3 and starts at height 0 |
| Day22.LineMax | src/day22.rs:126-132 | the inner `max` fold from 0 is never negative |
| Day22.FootprintMax | src/day22.rs:126-132 | the nested `max` fold from 0 is never negative |
| Day22.LineMaxIsMax | src/day22.rs:126-132 | the inner fold bounds every grid value of the column range and is one of them unless it is 0 |
| Day22.FootprintMaxIsMax | src/day22.rs:126-132 | the nested fold bounds every grid value under the footprint and is one of them unless it is 0 |
| Day22.FootprintHeight | src/day22.rs:125-132 | the nested loop computes the highest grid value under the brick's footprint |
| Day22.Paint | src/day22.rs:146-150 | setting the footprint keeps the grid's shape |
| Day22.SetFootprint | src/day22.rs:146-150 | the nested loop sets every cell of the footprint to the value and leaves the others unchanged |
| Day22.DropOneGrid | src/day22.rs:146-150 | after a brick settles each cell of its footprint holds the brick's new top and every other cell is unchanged |
| Day22.DropOne | src/day22.rs:117-151 | one brick settled on the height grid: moved down onto the highest value under it, and its footprint raised to its new top; DropOneGrid, DropOneHeight and DropOneKeepsXY state its effect, DropOneIs ties the loop to it |
| Day22.DropOneHeight | src/day22.rs:125-140 | a settled brick's lowest point is one above the highest grid value under it, and its height is unchanged |
| Day22.DropOneKeepsXY | src/day22.rs:134-137 | a brick falls straight down: its x and y extents are unchanged |
| Day22.DropBrick | src/day22.rs:117-151 | one loop iteration moves the brick to its settled position and returns the grid updated over its footprint |
| Day22.DropOneIs | src/day22.rs:117-151 | the values the loop computes one after another give the settled brick and the new grid |
| Day22.DropFrom | src/day22.rs:116-151 | settling a list gives one settled brick per brick |
| Day22.MinZKeys | src/day22.rs:112 | every brick has its `min_z` as its sort key |
| Day22.InsertBy | src/day22.rs:112 | inserting adds the element and keeps all the others |
| Day22.InsertSorted | src/day22.rs:112 | inserting into a list sorted by key keeps it sorted |
| Day22.SortBy | src/day22.rs:112 | sorting gives a permutation of the input |
| Day22.SortBySorted | src/day22.rs:112 | sorting gives a list ordered by `min_z` |
| Day22.SortedUnaliased | src/day22.rs:112-117 | after the sort every brick still appears once and still fits the grid |
| Day22.DropBricks | src/day22.rs:108-153 | the result is the snapshot sorted by `min_z`, and its bricks' ends are the positions they reach when settled in that order on a grid that starts at 0 |
| Day22.SettleAll | src/day22.rs:117-152 | the loop returns the bricks in order, each moved to its settled position |
| Day22.SettleNext | src/day22.rs:117-151 | one iteration settles brick i, changes no other brick, and keeps the loop's equation |
| Day22.SettleStep | src/day22.rs:117-151 | settling the next brick carries the loop's equation from brick i to brick i + 1 |
| Day23.FromChar | src/day23.rs:19-29 | each of `.`, `#`, `^`, `>`, `v` and `<` gives its tile, each an if-and-only-if, and any other character is an error where the source panics |
| Day23.GetPos | src/day23.rs:41-46 | a position (column, row) gives a tile exactly when it is on the map, and then the tile at that row and column |
| Day23.Position | src/day23.rs:79 | `position` finds the first index holding the tile, or nothing when the row has none |
| Day23.GetStartPoint | src/day23.rs:76-81 | the start is on the first row at a path tile, and exists exactly when the map has a first row holding a path tile (the source panics otherwise) |
| Day23.GetEndPoint | src/day23.rs:83-88 | the end is on the last row, and exists exactly when the last row holds a path tile (the source panics otherwise) |
| Day23.Deltas | src/day23.rs:99-117 | every delta is a single step north, south, east or west, and a slope allows exactly one |
| Day23.Candidates | src/day23.rs:119-139 | at most one candidate per delta tried |
| Day23.CandidatesExact | src/day23.rs:119-139 | the candidates are exactly the positions on the map and not forest that one of the deltas reaches |
| Day23.Trackers | src/day23.rs:141-153 | at most one tracker per candidate |
| Day23.TrackersExact | src/day23.rs:141-153 | a tracker is made exactly for each candidate outside the history, and its history is the old one followed by the current position |
| Day23.NextMapPositions | src/day23.rs:90-156 | the two loops compute the candidates and then the new trackers, in the order of the deltas |
| Day23.NextTrackersExact | src/day23.rs:90-156 | a tracker is returned if and only if its move obeys the four rules of the source's comments (a step north, east, south or west; only downhill on a slope; not forest; not in the history) and it carries the extended history |
| Day23.NextTrackers | src/day23.rs:90-156 | `next_map_positions` as a function: the candidates of the tile's deltas, then the trackers outside the history; NextTrackersExact and NextTrackersSound state which moves it returns |
| Day23.NextTrackersSound | src/day23.rs:90-156 | every move is one step onto an open tile of the map outside the history, and a slope gives at most one move |
| Day23.NextTracker | src/day23.rs:90-156 | for any one tracker: it is returned if and only if its move is allowed and its history is the old one followed by the current position |
| Day23.AllowedIsStep | src/day23.rs:109-139 | a move obeying the rules is one step north, south, east or west onto an open tile of the map outside the history |
| Day23.SlopeMoves | src/day23.rs:109-115 | from a slope tile at most one tracker is returned |
| Day23.LongestHistory | src/day23.rs:161-168 | the result is the longest history among the trackers standing on the end, or 0 when there are none |
| Common.DecimalValue | src/day19.rs:39 | the value of a run of decimal digits, most significant first; DecimalString and ParseIntRoundTrip state that writing a number and reading it back gives the number |
| Common.DigitRunEnd | src/day19.rs:33 | the run that `[0-9]+` matches from a position: all digits, and ending at the end of the text or at the first non-digit |
| Common.DigitRunEndAt | src/day19.rs:33 | a run of digits followed by a non-digit ends there, so the capture is determined by where the next part begins |
| Common.ParseInt | src/day22.rs:25-27 | `str::parse::<i32>`: an optional `+` or `-` and then only digits; a text of digits gives its decimal value, a signed one succeeds, and a negative result needs a `-` |
| Common.ParseIntRoundTrip | src/day19.rs:105 | a rating written in decimal, with or without a `-`, parses back as itself |
| Common.ParseIntString | src/day22.rs:25-27 | every integer written as `to_string` writes it parses back as itself |
| Common.Split | src/day22.rs:22-24 | `str::split`: at least one piece, and no piece holds the separator |
| Common.JoinSplit | src/day19.rs:103 | splitting loses nothing: the pieces joined with the separator give the text back |
| Common.SplitJoin | src/day22.rs:22-24 | pieces free of the separator, joined and split again, come back unchanged |

## Left out

- Reading the puzzle files (`read_lines` and every `parse_input` file loop), `println!` and `dbg!` output, and the `main.rs` dispatcher: input and output. Where a `parse_input` also computes (day 13's summary, day 15's boxes), that computation is modelled on the lines it reads.
- The `regex` crate: the model scans characters for what the patterns capture, and does not model a regular-expression engine.
- The `pathfinding` crate's `dijkstra` (src/day17.rs) and `dfs_reach` (src/day23.rs): library search drivers. The successor and goal functions they are given are modelled; `Day23.LongestHistory` takes the trackers the search reached as a parameter.
- `DefaultHasher`: the line hashes of day 13 are modelled by the lines themselves, which the hashes stand for. Day 14's hash-based cycle detection and the arithmetic on the remaining tilts, and its `print_map`, are left out for the same reason.
- The `print_activation_map` flag of day 16's `find_activated_cell_count`: it only prints the map.
- src/day6.rs (floating-point roots of a quadratic), src/day12.rs (a character mapping and an unfinished solver that returns an empty list) and src/template.rs (a file-reading skeleton) are not part of this model.
- Day 19's `find_accepting_paths` is `todo!()` in the source and `next_nodes` serves only it; neither is modelled.
- Day 22's `count_bricks_not_supporting_others` always returns 0 (its loop body is empty); it is not modelled.
- Machine integers: `i32`, `i64`, `u32` and `usize` are unbounded here, so overflow and wrap-around are not modelled. Casts of negative values to `usize` (days 16, 21) are treated as positions off the map, which is what the wrapped value is.
- Walks the source does not guarantee to end take a fuel bound: `Day8.CountSteps`, `Day8b` (through `Day8.Walk`), `Day10.FindPipeRoute` and `Day19.RunChain` report running out of fuel where the source would loop forever.
- `HashMap` iteration order: day 8b's starting nodes are taken from the keys in an order given as a parameter, and day 15's total power visits the boxes by number; the sum does not depend on the order.
- Day15.Label: the source drops every character for which `char::is_numeric` holds (any Unicode digit); the model drops the ASCII digits `0`-`9` only.
- Common.ParseInt: Rust's `parse::<i32>` rejects values outside the i32 range, and the source then panics; the model parses any length of digits. Day19.RuleFromStr, Day19.ItemFromStr and Day22.Brick.FromStr read their numbers through it and inherit this.
- Day21.FindPositionsAfterSteps: as in the source, 0 steps counts the positions after one step, because the first step is taken before the loop.
- Text is taken to be ASCII, so a character index is a byte offset: the source's byte-offset `split_at` calls (src/day1.rs:31-32, src/day18.rs:107, src/day19.rs:104) slice differently or panic on non-ASCII input, which the model does not capture.
- Day4.IsSpace: the card pattern's `\s` matches every Unicode White_Space character; the model takes the ASCII blanks only (space, tab, line feed, carriage return, form feed), leaving out U+000B and the non-ASCII spaces.
- Day5.MinimumMapToLocationChunked: the maps are addressed by their index in the almanac instead of by name, so the `get_index_of(name).unwrap()` lookup and its panic on an unknown name are not modelled.
- Day22.DropBricks: requires every brick's footprint to lie on the 3 by 3 collision grid (the source panics otherwise) and the bricks to be distinct objects; the sort is modelled by a stable insertion sort, but its stability is not stated as a property.
- Day22.Brick.GetXyOverlappingBricks: returns fresh copies, as `clone` does; that the copies are distinct from each other is not stated.
