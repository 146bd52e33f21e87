# Advent of Code 2023 solvers, days 1 to 8, in Dafny

This project models the puzzle solvers of a Rust Advent of Code 2023 crate and
proves properties of the model. Each source file becomes one Dafny module:

- wrappers.dfy, module `Wrappers`: `Option` and `Result`, where `Err` stands for a Rust panic.
- text.dfy, module `Text`: the parts of Rust's `str` API the solvers use (`split`, `trim`, `parse::<uN>`, `replace`, `Display` of integers).
- utils.dfy, module `Utils`: utils.rs (`into_lines`, `sum`) and the helpers the solvers import (`split`, `collect_numbers`, `nest_vector`, `min`, `max`, `mul`, `safe_sub`).
- day1.dfy, module `Trebuchet`: day_1.rs, calibration values.
- day2.dfy, module `CubeConundrum`: day_2.rs, cube games.
- day3.dfy, module `GearRatios`: day_3.rs, the engine schematic scan, part numbers and gears.
- day4.dfy, module `Scratchcards`: day_4.rs, scratchcard matches, scores and the copy table.
- day5.dfy, module `Seeds`: day_5.rs, the category mapping engine.
- day6.dfy, module `WaitForIt`: day_6.rs, boat races.
- day7.dfy, module `CamelCards`: day_7.rs, Camel Cards hands, Jokers and ranking.
- day8.dfy, module `HauntedWasteland`: day_8.rs, the left/right network walk.

The main part is the mapping engine of day 5:
- `Entry` is one interval rule. It moves a point from its source interval to its destination interval, and back.
- `Mapping` is an ordered list of rules. The first rule that holds a point moves it. A point no rule holds stays as it is.
- The builder finds a chain of category pairs between two names. It walks forward first and backward only when that fails.
- It then folds a list of points through every mapping on the chain, in reverse mode for a backward chain.
- The "real locations" are the rule boundaries moved back to seeds, filtered by the seed ranges, and moved forward to locations. The source has no interval-splitting routine, and neither does the model.

How the source is modelled:
- Loops and state changes in the source are methods in the model, each proved equal to a specification function. The in-place card table of day 4 is a class with a map field.
- A panic in the source is an `Err` (or `None`, or `ok == false`) in the model. The error cases carry contracts as well as the happy path.
- Integers are unbounded. A `u32`/`u64` bound appears only where the source's behaviour depends on it: parsing, the `sum` accumulator and `Gear::get_ratio`.
- The helpers `split`, `collect_numbers`, `nest_vector`, `min`, `max`, `mul` and `safe_sub` are not in utils.rs. Their contracts are assumptions, marked "ASSUMED" in utils.dfy:
  - `split(text, seps)` cuts at every separator character, trims each piece and drops empty ones.
  - `collect_numbers` parses every item as a `u64` and panics on the first failure.
  - `nest_vector(v, n)` gives consecutive chunks of `n` elements; the last chunk may be shorter.
  - `min` over `u64` starts from `u64::MAX`; `max` starts from 0.
  - `mul` is the product, 1 for an empty list.
  - `safe_sub(a, b)` is `a - b` floored at 0.

## Model

| member | source | states |
|---|---|---|
| Text.Trim | utils.rs:4 | the trimmed text is no longer than the input and has no whitespace at either end |
| Text.TrimInfix | utils.rs:4 | trimming removes only whitespace, and only from the two ends: the result is a slice of the input with whitespace on both sides |
| Text.TrimOfTrimmed | utils.rs:4 | a text with no whitespace at its ends is left unchanged by trimming |
| Text.SplitOn | utils.rs:3 | `str::split` always yields at least one piece |
| Text.SplitOnCount | utils.rs:3 | splitting yields exactly one piece more than there are separators |
| Text.SplitOnFree | utils.rs:3 | no piece of a split contains a separator |
| Text.SplitJoin | utils.rs:3 | joining separator-free pieces with a separator and splitting again gives the pieces back |
| Text.SplitJoinSplit | utils.rs:3 | re-joining the pieces of a split with any separator splits the same way again |
| Text.SplitConcat | utils.rs:3 | splitting at a separator in the middle gives the pieces of the two sides, concatenated |
| Text.SplitOnLast | day_2.rs:57-59 | the last piece of a split is the text after the last separator |
| Text.ParseUnsigned | day_1.rs:32 | `parse::<uN>()` only succeeds with a value within the type's bound |
| Text.ParseShow | day_1.rs:32 | parsing the decimal text of a number within the bound gives the number back |
| Text.ShowValue | day_7.rs:176 | the decimal text of `n` has value `n` |
| Text.ReplaceAbsent | day_1.rs:39-47 | `replace` of a pattern that does not occur leaves the text unchanged |
| Utils.IntoLines | utils.rs:1-7 | every line is non-empty, has no whitespace at either end, and holds no `'\n'` |
| Utils.NonBlank | utils.rs:3-5 | trimming and dropping blank pieces never adds a piece, and every kept piece is tidy |
| Utils.NonBlankAppend | utils.rs:3-5 | the kept pieces of two lists are the kept pieces of each, in order |
| Utils.IntoLinesConcat | utils.rs:1-7 | the lines of two texts joined by a newline are the lines of the first followed by the lines of the second |
| Utils.IntoLinesOfJoin | utils.rs:1-7 | tidy lines without newlines joined by `'\n'` come back unchanged, in order |
| Utils.Sum | utils.rs:9-17 | over `u32` items, the result is the arithmetic total when it fits in a `u32`, and the overflow panic (`None`) otherwise; 0 for the empty list |
| Utils.TotalAppend | utils.rs:12-14 | the total of two lists is the sum of their totals |
| Utils.Split | day_8.rs:27 | every piece of the assumed `split` is tidy and separator-free |
| Utils.CollectNumbers | day_5.rs:45 | the assumed `collect_numbers` succeeds exactly when every item parses as a `u64`, and then keeps the length |
| Utils.NestVector | day_5.rs:51 | the assumed `nest_vector` chunks are non-empty and of size `n`, except that the last one may be shorter |
| Utils.NestVectorFlatten | day_5.rs:51 | the chunks put back together are the vector |
| Utils.Min | day_4.rs:43 | the assumed `min` is a lower bound of the list and an element of it; `u64::MAX` for the empty list |
| Utils.Max | day_4.rs:44 | the assumed `max` is an upper bound of the list and an element of it; 0 for the empty list |
| Utils.AllOk | day_2.rs:57-62 | collecting results succeeds exactly when every element is `Ok`, and keeps the values in order |
| Trebuchet.Digits | day_1.rs:21-24 | the numeric characters are no more than the line's characters, and all are digits |
| Trebuchet.DigitsNone | day_1.rs:21-24 | a line has no numeric characters exactly when none of its characters is a digit |
| Trebuchet.DecodeCalibrationValue | day_1.rs:20-33 | the value exists exactly when the line holds a digit (otherwise the `unwrap` panics), and it is at most 99 |
| Trebuchet.TwoDigits | day_1.rs:26-32 | two digits written together parse as ten times the first plus the second |
| Trebuchet.FirstDigit | day_1.rs:28 | the first character kept by the filter is the first digit of the line |
| Trebuchet.LastDigit | day_1.rs:29 | the last character kept by the filter is the last digit of the line |
| Trebuchet.DigitsAppend | day_1.rs:21-24 | the digits of two texts joined are the digits of each, in order |
| Trebuchet.DecodeFirstLast | day_1.rs:20-33 | the value is `10 * first digit + last digit`, where no digit precedes the first and none follows the last |
| Trebuchet.DecodeOneDigit | day_1.rs:26-32 | a line with exactly one digit `d` decodes to `11 * d` |
| Trebuchet.BetterDecodeCalibrationValue | day_1.rs:35-50 | the better reading of a line is at most 99 |
| Trebuchet.RewriteAbsent | day_1.rs:38-47 | the nine replacements leave a line that spells no digit word unchanged |
| Trebuchet.BetterDecodePlain | day_1.rs:38-49 | on a line that spells no digit word, the better reading equals the plain one |
| CubeConundrum.WithCount | day_2.rs:131-135 | setting one colour's count changes that colour only |
| CubeConundrum.ColourNamed | day_2.rs:131-136 | a recognised colour name is the name of the colour returned |
| CubeConundrum.ColourNameRoundTrip | day_2.rs:131-135 | each colour's name reads back as that colour |
| CubeConundrum.Sections | day_2.rs:123-126 | an item always has a first word, so `first().unwrap()` cannot fail |
| CubeConundrum.ParseDrawing | day_2.rs:112-140 | parsing a drawing reads its trimmed `','`-separated items as the items' loop specifies |
| CubeConundrum.DrawingFromItems | day_2.rs:118-139 | the item loop computes the reading of the items: the first bad count or colour panics, and otherwise each item sets its colour |
| CubeConundrum.AssembleErrSticky | day_2.rs:122-137 | once an item panics, later items change nothing |
| CubeConundrum.AssembleLastWins | day_2.rs:122-139 | a drawing is built exactly when every item reads, and then each colour holds the count of the last item that names it, or `None` when no item does |
| CubeConundrum.DrawingPlayableMeaning | day_2.rs:142-144 | under `Option` order, a colour the drawing does not mention never makes it unplayable; a mentioned colour needs a limit at least as large |
| CubeConundrum.GameIsPlayableWith | day_2.rs:67-75 | a game is playable exactly when every drawing is, which includes a game without drawings |
| CubeConundrum.Present | day_2.rs:79-85 | the filtered counts of a colour are exactly the counts the drawings mention |
| CubeConundrum.Lowest | day_2.rs:78-85 | the lowest count of a colour bounds every mentioned count and is one of them; it is 0 when no drawing mentions the colour |
| CubeConundrum.LowestCountsMax | day_2.rs:77-101 | the lowest counts give every colour a count: the largest any drawing shows, or 0 |
| CubeConundrum.PlayableIffLowest | day_2.rs:67-101 | with a full limit, a game is playable exactly when its lowest counts are |
| CubeConundrum.LowestEnough | day_2.rs:67-101 | a game whose lowest counts fit the limit is playable |
| CubeConundrum.LowestNeeded | day_2.rs:67-101 | a playable game's lowest counts fit a full limit |
| CubeConundrum.LowestCountsLeast | day_2.rs:77-101 | the lowest counts are a bag the game is playable with, and no larger than any full bag it is playable with |
| CubeConundrum.Power | day_2.rs:146-162 | the power is the product of the counts the drawing mentions, where a missing colour is a factor of 1 |
| CubeConundrum.MulOfFactors | day_2.rs:147-161 | `mul` of the pushed counts equals the product of the present counts |
| CubeConundrum.ReadDrawings | day_2.rs:57-62 | reading the `';'`-separated pieces gives one drawing per piece |
| CubeConundrum.ReadGame | day_2.rs:40-65 | a parsed game's id fits a `u32`, and it has one drawing per `';'` piece of the text after the last `':'` |
| CubeConundrum.GameHeadId | day_2.rs:46-55 | the last word of `Game <id>` parses back to the id |
| CubeConundrum.ItemRoundTrip | day_2.rs:122-136 | an item `N colour` reads back as that colour and count |
| CubeConundrum.ItemsRoundTrip | day_2.rs:112-140 | the items of a drawing that mentions some colour read back as that drawing |
| CubeConundrum.DrawingRoundTrip | day_2.rs:61 | a drawing's text, as it stands after a `';'`, parses back to the drawing |
| CubeConundrum.ReadGameOf | day_2.rs:40-65 | a header and pieces that each parse as a drawing read as the game with that id and those drawings |
| CubeConundrum.GameRoundTrip | day_2.rs:40-65 | a game written as in the puzzle input parses back to the same game |
| GearRatios.Step | day_3.rs:39-86 | one character keeps the scan state well formed: the buffer holds only digits and never more of them than the column |
| GearRatios.Flush | day_3.rs:52-70 | emitting the pending number empties the buffer and keeps the column |
| GearRatios.Place | day_3.rs:72-85 | a non-digit character leaves the emitted numbers unchanged |
| GearRatios.Run | day_3.rs:39-86 | the scan of any prefix that does not panic is well formed |
| GearRatios.Parse | day_3.rs:32-92 | `Schematic::parse` panics exactly when the scan does, and otherwise returns the scan's numbers and symbols |
| GearRatios.ReadCharacter | day_3.rs:39-86 | the loop body computes one step of the scan |
| GearRatios.RunErrSticky | day_3.rs:59 | after a panic the rest of the input does not matter |
| GearRatios.SkipBlank | day_3.rs:40-42 | spaces and tabs change nothing, not even the column |
| GearRatios.NewlineResets | day_3.rs:72-74 | a newline sets the column to 0, adds one line and leaves no number pending |
| GearRatios.SymbolRecorded | day_3.rs:76-85 | a symbol character is recorded at the current line and column, as a possible gear exactly when it is `'*'`, and moves the column on by one |
| GearRatios.DigitsAccumulate | day_3.rs:44-49 | digits extend the buffer and the column and emit nothing |
| GearRatios.TrailingRunDropped | day_3.rs:86-91 | a digit run at the very end of the input is never emitted |
| GearRatios.NumberEmitted | day_3.rs:52-70 | a digit run ended by a non-digit emits one part number with the run's decimal value on the current line, with `end_col - start_col` equal to its digit count |
| GearRatios.StepFlushes | day_3.rs:52-70 | a non-digit after buffered digits that fit a `u32` emits the part number spanning them, ending at the current column |
| GearRatios.LineCounts | day_3.rs:72-75 | the line number is the count of newlines read |
| GearRatios.PartsWellFormed | day_3.rs:53-67 | every part number has a non-empty span and a `u32` value |
| GearRatios.IsSymbolAdjacent | day_3.rs:152-161 | adjacent exactly when the lines differ by at most one, `start_col <= col + 1` and `col <= end_col` |
| GearRatios.AsWrittenAgrees | day_3.rs:152-161 | whenever the code as written answers, the answer is the intended one; it underflows exactly when the symbol is on line 0 and the number on line 0 or 1 |
| GearRatios.FirstLineCounterexample | day_3.rs:154 | a `'*'` on line 0 right after a number on line 0: the code as written underflows, while the intended rule calls them adjacent |
| GearRatios.AdjacentMeansTouching | day_3.rs:152-161 | adjacency means the symbol's cell is one of the eight neighbours of a digit cell |
| GearRatios.PartsWithSymbols | day_3.rs:94-107 | the kept numbers are never more than the numbers |
| GearRatios.PartsWithSymbolsMembers | day_3.rs:94-107 | a number is kept exactly when it is a number of the schematic with some adjacent symbol |
| GearRatios.PartsWithSymbolsSubset | day_3.rs:94-107 | no number is kept more often than it occurs |
| GearRatios.GetPartsWithSymbols | day_3.rs:94-107 | the nested loop with its `break` keeps, in order, the numbers with an adjacent symbol |
| GearRatios.AdjacentPartsMembers | day_3.rs:120-123 | the numbers a symbol sees are exactly the numbers adjacent to it |
| GearRatios.GearsSound | day_3.rs:109-140 | never more gears than symbols; every gear is a `'*'` symbol of the schematic with two of its numbers, both adjacent to it |
| GearRatios.GearForSymbol | day_3.rs:117-136 | for one `'*'`, a gear exists exactly when at least two numbers are adjacent, made of the first two |
| GearRatios.GetGearsWithParts | day_3.rs:109-140 | every `'*'` in order gives its gear, and other symbols give none |
| GearRatios.GetRatio | day_3.rs:179-181 | the ratio is the product of the two numbers, and the `u32` multiplication panics exactly when the product does not fit |
| Scratchcards.MatchCount | day_4.rs:146-150 | a card never has more matches than held numbers |
| Scratchcards.GetMatches | day_4.rs:143-153 | the loop counts the held numbers, repeats included, that are winning numbers |
| Scratchcards.GetScore | day_4.rs:127-141 | the loop's doubling gives the card's score for its matches |
| Scratchcards.ScoreDoubles | day_4.rs:127-141 | the score is 0 exactly without a match, 1 for one match, and each further match doubles it |
| Scratchcards.MatchCountAppend | day_4.rs:146-150 | matches add up over the parts of the held numbers |
| Scratchcards.MatchCountNone | day_4.rs:146-150 | no match exactly when no held number is a winning number |
| Scratchcards.MatchCountAll | day_4.rs:146-150 | every held number matches exactly when all are winning numbers |
| Scratchcards.Words | day_4.rs:106-108 | dropping empty pieces never adds a piece |
| Scratchcards.ReadNumbers | day_4.rs:102-118 | the numbers read from a section all fit a `u64` |
| Scratchcards.NumbersRoundTrip | day_4.rs:102-118 | a list of `u64` numbers written with spaces reads back as the list |
| Scratchcards.ParseCard | day_4.rs:88-125 | the card number is the last `' '`-separated word before the first `':'`, parsed as a `u64` |
| Scratchcards.CardRoundTrip | day_4.rs:88-125 | a card written as in the puzzle input parses back to the same card |
| Scratchcards.CardNumbers | day_4.rs:37-38 | one card number per card, in order |
| Scratchcards.EntriesFresh | day_4.rs:33-40 | the new table holds exactly the card numbers, each with count 1; a repeated number keeps its last card |
| Scratchcards.RegisterDefined | day_4.rs:53-60 | registering panics exactly when a card to copy is absent |
| Scratchcards.RegisterAdds | day_4.rs:53-60 | registering adds `multiplier` to the cards `card_number+1 ..= card_number+points` and changes nothing else |
| Scratchcards.CopyMonotone | day_4.rs:62-68 | copying keeps the table's cards and never lowers a count |
| Scratchcards.CopySettled | day_4.rs:62-68 | copies only go to later cards: cards up to the first one visited keep their entry |
| Scratchcards.CopyCounts | day_4.rs:62-68 | every card ends with its starting count plus the copies it received from each visited card, counted with that card's final count |
| Scratchcards.FreshTotal | day_4.rs:33-47 | a fresh table holds one card per card number |
| Scratchcards.CopyTotal | day_4.rs:62-78 | copying never lowers the total |
| Scratchcards.Scratchpad.constructor | day_4.rs:33-47 | the table is every card under its number with count 1; first and last card are the assumed `min`/`max` of the card numbers |
| Scratchcards.Scratchpad.IncrementBy | day_4.rs:49-51 | adds `amount` to exactly one card, and panics (`ok == false`, nothing changed) when the card is absent |
| Scratchcards.Scratchpad.RegisterPoints | day_4.rs:53-60 | the table after the loop is the registering function's result, and the loop panics exactly when that function does |
| Scratchcards.Scratchpad.CopyScratchcards | day_4.rs:62-68 | visits `first_card ..= last_card` in ascending order, each with its count as already raised; the new table is the copying function's result |
| Scratchcards.Scratchpad.GetTotalCards | day_4.rs:70-78 | the sum of all counts in the table, in any order |
| Seeds.EntryMap | day_5.rs:305-315 | `map(x)` is `Some` exactly when `source_start <= x <= source_start + length - 1`, and then the offset into the destination equals the offset into the source |
| Seeds.EntryMapReverse | day_5.rs:317-327 | the same over the destination interval, back into the source interval |
| Seeds.EntryRoundTrip | day_5.rs:305-327 | a rule maps `x` to `y` exactly when it maps `y` back to `x` |
| Seeds.EntryReverseIsFlip | day_5.rs:305-327 | mapping back through a rule is mapping forward through the rule with its intervals exchanged |
| Seeds.MapCodeFirstMatch | day_5.rs:227-244 | the first rule whose source interval holds the point moves it; when none does, the point is returned unchanged |
| Seeds.MapCodeReverseFirstMatch | day_5.rs:250-267 | the same for `map_reverse`, over destination intervals |
| Seeds.MappingMap | day_5.rs:227-244 | the scan with `break` returns the value of the first matching rule, otherwise the input |
| Seeds.MappingMapReverse | day_5.rs:250-267 | the reverse scan returns the value of the first rule whose destination interval holds the point, otherwise the input |
| Seeds.MapMany | day_5.rs:246-248 | keeps the length and moves each code on its own |
| Seeds.MapManyReverse | day_5.rs:269-271 | keeps the length and moves each code back on its own |
| Seeds.DestBottoms | day_5.rs:273-275 | one destination start per rule, in rule order |
| Seeds.MapReverseNotInverse | day_5.rs:227-267 | with the identity fallback, `map_reverse` is not the inverse of `map`: rule 50..51 to 98..99 keeps 98 forward but sends 98 back to 50 |
| Seeds.MapCodeRoundTrip | day_5.rs:227-267 | when the rule that moves `x` is also the first rule whose destination interval holds the image, mapping back recovers `x` |
| Seeds.SortBySource | day_5.rs:215 | sorting keeps the number of rules |
| Seeds.Insert | day_5.rs:215 | inserting one rule adds exactly one element |
| Seeds.InsertPerm | day_5.rs:215 | inserting adds exactly that rule to the multiset |
| Seeds.InsertSorted | day_5.rs:215 | inserting into a sequence sorted by source start keeps it sorted |
| Seeds.InsertStable | day_5.rs:215 | the inserted rule goes behind the rules with the same source start |
| Seeds.SortBySourceCorrect | day_5.rs:215 | the sort is a permutation ordered by source start, and stable: rules with equal source starts keep their order |
| Seeds.SortKeepsValid | day_5.rs:215 | sorting keeps every rule evaluable without underflow |
| Seeds.FindMapping | day_5.rs:85-96 | `get_mapping` finds a mapping exactly when one has both names, and it returns a mapping of the list with those names |
| Seeds.GetMapping | day_5.rs:85-96 | the scan returns the first mapping with both names |
| Seeds.FindMappingFirst | day_5.rs:89-93 | the mapping found is the one at the first position with both names |
| Seeds.NextDestination | day_5.rs:105-111 | the forward `find_map` gives the destination of a mapping from the current category, and fails exactly when there is none |
| Seeds.NextSource | day_5.rs:134-140 | the backward `find_map` gives the source of a mapping into the current category, and fails exactly when there is none |
| Seeds.ForwardWalkChain | day_5.rs:102-122 | a forward walk that arrives is a chain: the first pair starts at `from`, each destination is the next source, the last destination is `to`, and every pair names a mapping |
| Seeds.BackwardWalkChain | day_5.rs:131-151 | a backward walk that arrives is a chain: the first destination is `from`, each source is the next destination, the last source is `to`, and every pair names a mapping |
| Seeds.WalkForward | day_5.rs:102-122 | the forward loop, pushing onto `mappings`, computes the forward walk |
| Seeds.WalkBackward | day_5.rs:131-151 | the backward loop, pushing onto `reverse_mappings`, computes the backward walk |
| Seeds.InferMappingStrategy | day_5.rs:98-160 | computes the strategy: the forward walk, and the backward one only when the forward walk is stuck |
| Seeds.Ends | day_5.rs:105-111 | the categories a lookup can start from are the sources (forward) or destinations (backward) of the mappings, and there are at most as many as mappings |
| Seeds.NextInEnds | day_5.rs:105-111 | a lookup that finds a mapping starts from one of those categories |
| Seeds.WalkAtAdd | day_5.rs:102-122 | `a + b` loop iterations are `a` iterations followed by `b` more from where the first `a` ended |
| Seeds.WalkRepeats | day_5.rs:102-122 | when the first `|ms| + 1` lookups all succeed, two iterations `i < j <= |ms|` stand on the same category |
| Seeds.WalkCycles | day_5.rs:102-122 | once the loop revisits a category, every later iteration succeeds and misses `to`, so the `break true` never comes |
| Seeds.ForwardEndless | day_5.rs:102-122 | a forward walk that runs out of fuel made `fuel + 1` successful lookups of the source's forward loop, none landing on `to` |
| Seeds.BackwardEndless | day_5.rs:131-151 | a backward walk that runs out of fuel made `fuel + 1` successful lookups of the source's backward loop, none landing on `to` |
| Seeds.InferDiverges | day_5.rs:98-160 | `Diverges` is reported only when the source never returns: the forward loop succeeds at every iteration without reaching `to`, or it hits a dead end and the backward loop then does so |
| Seeds.InferCorrect | day_5.rs:98-160 | a forward strategy has `do_reverse == false` and is a forward chain; a backward one comes only after a stuck forward walk, has `do_reverse == true` and is a backward chain; the panic happens exactly when both walks are stuck; every pair names a mapping, so the `unwrap` at line 171 cannot fail |
| Seeds.FoundIsValid | day_5.rs:171 | the mapping found for a pair has evaluable rules |
| Seeds.FoldChainStep | day_5.rs:170-178 | in each turn of the loop the mapping named by the pair exists, and its step moves the codes on |
| Seeds.FoldChainPointwise | day_5.rs:170-180 | folding a list through the chain keeps its length and moves each point on its own |
| Seeds.BuilderMap | day_5.rs:163-181 | `MappingBuilder::map` infers the strategy once and folds the codes through the chain, in reverse mode for a backward chain |
| Seeds.TranslatePointwise | day_5.rs:163-181 | `map` panics exactly when no strategy is found; otherwise it returns exactly as many codes as it was given, each the single-point translation |
| Seeds.SeedBottomsStep | day_5.rs:186-191 | each mapping appends its destination starts moved to "seed", or its failure is the result |
| Seeds.GetSeedBottoms | day_5.rs:183-194 | the loop moves every rule's destination start back to "seed", mapping after mapping |
| Seeds.SeedBottomsCount | day_5.rs:183-194 | without a failure there is exactly one seed code per rule |
| Seeds.SeedRanges | day_5.rs:50-62 | one range per chunk of two codes, with start the first and length the last element of the chunk |
| Seeds.GetRanges | day_5.rs:50-62 | the loop builds exactly those ranges |
| Seeds.IsWithinList | day_5.rs:64-74 | true exactly when some range of the list holds the seed |
| Seeds.WithinListOfPairs | day_5.rs:32-34 | for an even list, membership is `start <= p < start + length` for some pair |
| Seeds.KeepWithin | day_5.rs:13-18 | filtering never adds a candidate |
| Seeds.KeepWithinSound | day_5.rs:13-18 | a candidate is kept exactly when some seed range holds it |
| Seeds.RealLocations | day_5.rs:13-20 | the real-location candidates are the rule boundaries moved back to seeds, kept when in a seed range, and moved forward to locations |
| WaitForIt.Wins | day_6.rs:73-85 | no more wins than holds tried |
| WaitForIt.MaxTravel | day_6.rs:75-93 | `max_distance` on reaching a hold is the longest travel of the holds before it, or 0 |
| WaitForIt.StopsIff | day_6.rs:78-96 | the loop's `break` at line 87 fires at some hold exactly when `time >= 2`; for a shorter race it never fires and the source never returns |
| WaitForIt.NoTravel | day_6.rs:79-80 | in a race shorter than 2 milliseconds every hold travels 0 and `max_distance` stays 0 |
| WaitForIt.WinningCount | day_6.rs:73-99 | the count of winning holds in `[0, time]` for every race, 0 for a race shorter than 2 milliseconds |
| WaitForIt.GetWinningCount | day_6.rs:73-99 | for `time >= 2`, the loop with its early `break` counts exactly the winning holds in `[0, time]` |
| WaitForIt.TravelGap | day_6.rs:79-80 | the travel difference of two holds `a <= b <= time` is `(b - a) * (time - a - b)` |
| WaitForIt.LaterFalls | day_6.rs:87-89 | past the peak the travel falls strictly |
| WaitForIt.LaterHoldsLose | day_6.rs:87-89 | once a hold travels less than an earlier one and does not win, no later hold wins, so breaking loses nothing |
| WaitForIt.WinsFlat | day_6.rs:87-95 | counting over holds that do not win adds nothing |
| WaitForIt.WinsAll | day_6.rs:73-99 | counting past the breaking hold up to `time` adds no win |
| WaitForIt.WinsCount | day_6.rs:73-85 | the count is the size of the set of winning holds |
| WaitForIt.TravelMirror | day_6.rs:79-80 | holding `time - h` travels as far as holding `h` |
| WaitForIt.WinningMirror | day_6.rs:79-81 | holding `h` wins exactly when holding `time - h` does |
| WaitForIt.Section | day_6.rs:19 | the last non-blank `':'`-separated piece, and a panic when there is none |
| WaitForIt.ParseOutRaces | day_6.rs:16-42 | succeeds exactly when both lines exist and read as numbers; the races pair times and distances from the back, as many as the shorter list |
| WaitForIt.PopRaces | day_6.rs:28-39 | popping both lists together pairs them from the back until either runs out |
| WaitForIt.PairedSnoc | day_6.rs:29-38 | one more pop keeps the back-to-front pairing |
| WaitForIt.Squeezed | day_6.rs:51 | no space is left |
| WaitForIt.SqueezedJoin | day_6.rs:51 | removing the spaces from numbers joined by spaces runs their digits together |
| WaitForIt.ParseOutRacesBetter | day_6.rs:44-64 | the single race's time and distance fit a `u64` |
| WaitForIt.LineSection | day_6.rs:19 | the section of a `Name: numbers` line is its numbers text |
| WaitForIt.NumbersLine | day_6.rs:18-25 | a `Name: numbers` line reads back as its numbers |
| WaitForIt.BetterLine | day_6.rs:47-53 | the better reading of a line is its numbers' digits run together, as one number |
| WaitForIt.RacesRoundTrip | day_6.rs:16-42 | the two lines of a race sheet written as `Name: numbers` are readable and read back as the times and the distances |
| WaitForIt.RacesBetterRoundTrip | day_6.rs:44-64 | the better reading of a race sheet is the race of the concatenated digits, and it fails exactly when either number does not fit a `u64` |
| CamelCards.CardRank | day_7.rs:27-42 | the derived order puts `Ace` lowest and `Joker` highest among the thirteen cards |
| CamelCards.TypeRank | day_7.rs:44-53 | the derived order puts `FiveOfAKind` lowest and `HighCard` highest among the seven types |
| CamelCards.CardFromChar | day_7.rs:129-146 | accepts exactly `A K Q T 9 8 7 6 5 4 3 2 J`, and then returns the card written with that letter |
| CamelCards.CardCharRoundTrip | day_7.rs:129-146 | every card's letter reads back as that card |
| CamelCards.GetCardCounts | day_7.rs:56-68 | a card is a key exactly when it occurs, its value is its number of occurrences, and the counts sum to the number of cards |
| CamelCards.TallyOfCards | day_7.rs:56-68 | the occurrences of all thirteen cards add up to the number of cards |
| CamelCards.GetCardWithCount | day_7.rs:70-78 | returns some key with the given count, and `None` exactly when no key has it |
| CamelCards.GetCardWithFrequency | day_7.rs:80-91 | `Joker` when the Joker count equals `f`; otherwise a non-Joker card with `f` less the Jokers; `None` exactly when neither exists |
| CamelCards.FrequencyLeft | day_7.rs:81-90 | with the Joker removed from the counts, the keys with the wanted count are exactly the non-Joker answers |
| CamelCards.GetCardsWithFrequencies | day_7.rs:93-107 | a pair exists exactly when some first answer has a partner, a different non-Joker card with the second count; the result is such a pair |
| CamelCards.PairHasFirst | day_7.rs:93-97 | a pair is only found when some card fits the first frequency |
| CamelCards.NoPartnerNoPair | day_7.rs:99-106 | when the first card found has no partner, no pair exists at all |
| CamelCards.ChoiceIrrelevant | day_7.rs:93-107 | whichever first card the map order yields, a partner is left for it whenever some first card has one |
| CamelCards.JokerBound | day_7.rs:109-125 | every frequency the chain asks for is at least the Joker count, so `frequency - jokers_available` never underflows |
| CamelCards.FromCards | day_7.rs:109-125 | the if-chain gives the type of the first test that succeeds |
| CamelCards.FiveJokers | day_7.rs:110-111 | five Jokers are five of a kind |
| CamelCards.NoJokerPattern | day_7.rs:93-125 | without Jokers the type follows the occurrence counts: 5 gives Five, 4 Four, {3,2} FullHouse, 3 Three, two 2s TwoPair, one 2 OnePair, else HighCard |
| CamelCards.NoJokerFrequency | day_7.rs:80-91 | without Jokers a card of frequency `f` exists exactly when some card occurs `f` times |
| CamelCards.NoJokerFullHouse | day_7.rs:114-115 | without Jokers the (3, 2) pair exists exactly when some card occurs three times and another twice |
| CamelCards.NoJokerTwoPair | day_7.rs:118-119 | without Jokers the (2, 2) pair exists exactly when two different cards occur twice |
| CamelCards.Cmp | day_7.rs:190-221 | the loop returns the hand order: the type order when the types differ, else the first differing card |
| CamelCards.CardsCmpEqual | day_7.rs:195-217 | the card walk gives `Equal` exactly for identical cards |
| CamelCards.CardsCmpReverse | day_7.rs:195-217 | swapping the hands reverses the card walk's answer |
| CamelCards.CardsCmpTransitive | day_7.rs:195-217 | the card walk is transitive |
| CamelCards.HandCmpEqual | day_7.rs:190-221 | two hands compare `Equal` exactly when they hold the same cards in the same order |
| CamelCards.HandCmpAntisymmetric | day_7.rs:190-221 | `cmp(a, b)` is the reverse of `cmp(b, a)`, so `cmp(a, a) == Equal` |
| CamelCards.HandCmpTransitive | day_7.rs:190-221 | `cmp` is transitive |
| CamelCards.HandCmpPreorder | day_7.rs:190-221 | `cmp` is a total preorder |
| CamelCards.StrongerTypeWins | day_7.rs:192-220 | a stronger type compares `Less`, whatever the cards |
| CamelCards.ReadCards | day_7.rs:159-164 | every letter is read as a card in order, and the first bad letter panics |
| CamelCards.HandFromString | day_7.rs:156-179 | succeeds exactly when the first `' '`-separated segment has at least five letters, all of them card letters, and the last segment parses as a `u64`; the five cards are the first five letters in order and the bid is that number |
| CamelCards.HandRoundTrip | day_7.rs:156-179 | a hand written as `CARDS bid` reads back as the same hand |
| CamelCards.InsertBy | day_7.rs:9 | inserting adds exactly the one element |
| CamelCards.SortBy | day_7.rs:9 | sorting keeps the number of elements |
| CamelCards.SortByPermutes | day_7.rs:9 | sorting is a permutation |
| CamelCards.SortBySorted | day_7.rs:9 | under a total preorder the sorted sequence descends |
| CamelCards.SortByStable | day_7.rs:9 | the elements equal to any `x` keep their relative order |
| CamelCards.SortByCorrect | day_7.rs:9 | the stable sort keeps the elements, orders them from the greatest to the least, and keeps equal elements in their order |
| CamelCards.RankOrderCorrect | day_7.rs:8-9 | `sort_by(\|a, b\| b.cmp(a))` keeps every hand, puts a later hand never above an earlier one, so rank 1 is the weakest, and keeps ties in input order |
| CamelCards.TotalWinnings | day_7.rs:11-18 | the loop sums `bid * (index + 1)` over the hands in ranking order |
| CamelCards.ParseHands | day_7.rs:23-25 | succeeds exactly when every line reads as a hand, one hand per line |
| HauntedWasteland.DirectionOf | day_8.rs:93-96 | only `'L'` and `'R'` are directions |
| HauntedWasteland.ParseDirections | day_8.rs:89-100 | succeeds exactly when every character of the trimmed text is `'L'` or `'R'`; `'L'` is Left and `'R'` is Right |
| HauntedWasteland.DirectionsRoundTrip | day_8.rs:89-100 | directions written as letters read back as the same directions |
| HauntedWasteland.NodeOf | day_8.rs:27-32 | a parsed node is keyed by the first `'='`-separated piece |
| HauntedWasteland.FromLines | day_8.rs:23-36 | the loop builds the table of the lines in order, and the first bad line panics |
| HauntedWasteland.NetworkErrSticky | day_8.rs:26-33 | a bad line makes the whole input fail |
| HauntedWasteland.NodeRoundTrip | day_8.rs:27-32 | `KEY = (LEFT, RIGHT)` parses back to the key and its two neighbours |
| HauntedWasteland.NetworkOfNodes | day_8.rs:23-36 | node lines written out build the table of the nodes, with a later line for a key replacing an earlier one |
| HauntedWasteland.Step | day_8.rs:38-45 | defined exactly for codes of the network; Left gives the left option and Right the right one |
| HauntedWasteland.CodesEndingWith | day_8.rs:47-53 | exactly the codes of the network whose last character is `c` |
| HauntedWasteland.CodesEndingApart | day_8.rs:47-53 | codes ending with two different characters never overlap |
| HauntedWasteland.Walk | day_8.rs:65-83 | an empty direction list divides by zero; otherwise the result is the first step count at which the walk stands on a target, step `i` using direction `i mod len`, or the step at which it leaves the network |
| HauntedWasteland.AfterNoneSticky | day_8.rs:77 | once the walk has left the network it stays off it |
| HauntedWasteland.FirstArrivalUnique | day_8.rs:65-83 | there is only one first arrival |
| HauntedWasteland.ArrivedAtStart | day_8.rs:69-75 | a start that is already a target is reached in 0 steps |
| HauntedWasteland.WalkComplete | day_8.rs:65-83 | when a target is first reached after `n` steps, the walk with at least `n` fuel reports exactly `n` |
| HauntedWasteland.WalkPeriodic | day_8.rs:70-71 | a walk that returns to its start after whole passes through the directions repeats with that period |

## Left out

- main.rs, cache.rs, build_bin.rs and lib.rs: CLI parsing, HTTP fetches, the file cache, process spawning and timing are all I/O, so they are not part of this model.
- The `println!` output of every puzzle entry function. The values are modelled; the printing is not.
- The regular-expression parsing of day_5.rs (`SeedList::from_str`, `Mapping::many_from_str`, `MappingEntry::many_from_str`) depends on the `regex` crate. The engine starts from parsed rules; only the sort at line 215 is kept.
- The entry functions that only combine the modelled operations and print are not modelled as members: `trebuchet`, `cube_conundrum`, `gear_ratios`, `scratchcards`, `seeds`, `wait_for_it` and `haunted_wasteland`. In day 7 the ranking loop of `camel_cards` is modelled (`CamelCards.TotalWinnings`).
- `least_common_multiple` (day_8.rs:15) is not shown anywhere, so it is not part of this model.
- `char::is_numeric` (day_1.rs:23, day_3.rs:44) is modelled for ASCII digits only; other Unicode numerals are not.
- Text.Trim: `str::trim` (utils.rs:4, day_2.rs:50, day_4.rs:100, day_8.rs:91 and others) removes Unicode `White_Space`; the model removes ASCII whitespace only, so a no-break space (U+00A0) or an em space (U+2003) at an end is kept.
- HashMap iteration order (day_4.rs:73-75, day_7.rs:71-75, day_8.rs:48-52) is not modelled. `get_card_with_count` picks any key with the count, and `get_codes_ending_with` returns a set.
- Integer widths: sums, products and counts are unbounded, except the `u32` accumulator of `Utils.Sum`, the `u32` product of `GearRatios.GetRatio` and the bounds checked by parsing.
- Seeds.EntryMap: requires `length >= 1` or `source_start >= 1`, because otherwise `source_start + length - 1` underflows (a debug-build panic); Seeds.EntryMapReverse likewise for the destination start.
- Seeds.InferMappingStrategy: the source loops for ever on a cycle of categories. The walks here take `|ms|` fuel, give up after `|ms| + 1` successful lookups that miss `to`, and report `Diverges`; `Seeds.InferDiverges` proves that the source's loop then never stops, but the non-terminating loop itself is not modelled.
- HauntedWasteland.Walk: the source loops for ever when no target is ever reached. The walk takes a `fuel` step bound and reports `OutOfFuel` when it is used up.
- WaitForIt.GetWinningCount: requires `time >= 2`, because for `time <= 1` every hold travels 0, the break never happens and the source never returns (`WaitForIt.StopsIff`, and the day_6.rs:73-99 row under "## Findings"). `WaitForIt.WinningCount` is the total count. The `u64` overflow of `holding_time * time_left` is not modelled.
- GearRatios.PartsWithSymbols, GearRatios.GetPartsWithSymbols, GearRatios.AdjacentParts, GearRatios.GearOf, GearRatios.GearsOf, GearRatios.GearForSymbol and GearRatios.GetGearsWithParts are built on the intended adjacency rule `GearRatios.IsSymbolAdjacent` of the day_3.rs:154 finding, not on `GearRatios.IsSymbolAdjacentAsWritten`. A release build of the source wraps the subtraction: in `467*` it does not count 467 as a part number and forms no gear from it. These members do not model that behaviour of the code as written.
- WaitForIt.ParseOutRacesBetter: states only the `u64` bounds; its value is pinned down by `WaitForIt.RacesBetterRoundTrip` for race sheets written in the puzzle's form.
- Trebuchet.BetterDecodeCalibrationValue: states only the bound and, through `Trebuchet.BetterDecodePlain`, the words-free case. It does not prove that overlapping words such as `eightwo` yield both digits.
- CamelCards.GetCardWithFrequency: requires at most `frequency` Jokers, because `frequency - jokers_available` is a `u64` subtraction that would underflow; `CamelCards.JokerBound` shows that `from_cards` never asks for less.
- Scratchcards: the top-level `scratchcards` result (scores summed, then the pad copied and totalled) is not composed into one member. The pad's operations are modelled as methods of `Scratchcards.Scratchpad`.
- Scratchcards.Scratchpad.IncrementBy: the source panics when the card is absent, but there the pad is left as it was and `ok` is false. `RegisterPoints` and `CopyScratchcards` then stop and report the failure.
- GearRatios.Parse: `col_number - joined.len()` cannot underflow, because every buffered digit moved the column on; this is part of the scan invariant, not a separate error case.

## Findings

| source | as written | input that shows it | evidently intended | confidence | as-written member | corrected member |
|---|---|---|---|---|---|---|
| day_3.rs:154 | `symbol.line - 1 > self.line` on `u32`: for a symbol on line 0 whose line + 1 is not below the number's line, `symbol.line - 1` underflows. A debug build panics; a release build wraps and calls the symbol not adjacent. | the schematic `467*` has the number 467 at line 0, columns 0..3, and a `'*'` at line 0, column 3 | a symbol on the same line or a neighbouring line is adjacent (the comment at day_3.rs:153), also on line 0 | not executed | GearRatios.FirstLineCounterexample | GearRatios.IsSymbolAdjacent |
| day_6.rs:78-96 | the only exit of the `loop` is `max_distance > travel_distance && !will_win`. When `time <= 1` every hold travels 0, so `max_distance` stays 0 and the loop never ends. | a race with `time == 1` (or 0) and any record | a race in which no hold travels counts 0 winning holds | not executed | WaitForIt.StopsIff | WaitForIt.WinningCount |
