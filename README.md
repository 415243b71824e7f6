# loto-stats in Dafny

A model of the core of loto-stats, a single-page application for keeping
statistics on French loto (bingo) evenings with numbers 1 to 90.

- **Live game.** The organiser starts a game (a "partie") and enters each drawn
  number. A number can be withdrawn and the game ended. Every game records its
  draws in order.
- **Global statistics.** These hold every game and an all-time frequency map
  from a number to how often it was drawn.
- **Derived views.**
  - The 90-row frequency table, with the last game that drew each number and
    the ids of all games that drew it.
  - The top 15 and flop 15 lists, and the most and least frequent numbers.
  - Decade buckets (1-10 .. 81-90) and card-column buckets (1-9 .. 80-90).
  - The evolution of finished games.
  - Milestone statistics per round ("manche"): quine, second quine, double
    quine and carton plein.
- **Lists and details.** The list of games can be searched and sorted. A detail
  view shows one game's duration, decades, a ten-per-row grid of draws and the
  average time per draw.
- **Import and export.** Statistics can be imported with a merge and a
  recount, and exported as CSV. The quick-entry field validates typed numbers.

One Dafny module per source file:

| module | source file |
|---|---|
| `Config` | constants |
| `GameTypes` | the data model: `Manche`, `LotoGame`, `GlobalStats` |
| `Guards` | the runtime type guards over parsed JSON |
| `Storage` | the frequency update, the recount and the initial statistics |
| `GameState` | the live game hook, as a class over `games`, `allTimeFrequency` and `totalGamesPlayed` |
| `UseStats` | the statistics hook |
| `Statistics` | collection utilities: duration text, averages, common and unique numbers, recent games, search, sort |
| `QuineAnalysis` | milestones of a round and the milestone statistics |
| `ImportStats` | file validation and the merge |
| `CsvExport` | CSV export |
| `ColumnDistribution` | the column chart's bucketing |
| `PartiesList` | the games list: search, sort controls (a class), sort and counts |
| `PartyDetails` | the detail view's figures |
| `QuickInput` | the entry field (a class over its text and message) |

Four helper modules support them:

- `Wrappers` holds `Option`.
- `SeqUtil` holds `Count`, `Filter`, `Sum`, `Min`, `Max` and `Reverse` with their lemmas.
- `Text` holds decimal printing and parsing, padding, `Join`, lower-casing,
  trimming and a code-point string comparison.
- `Sorting` holds a stable insertion sort taking a JavaScript comparator
  that returns an `int`. The JavaScript `Array.prototype.sort` is stable, so
  the model proves both sortedness and the order of ties.

How the JavaScript is represented:

- Timestamps are integers of epoch milliseconds.
- A game's `date` is an `Instant` holding both its ISO text, which is displayed
  and searched, and its parsed millisecond value, which is used for ordering.
- The frequency map is a `map<int, int>`. A missing key reads as 0.
- JavaScript's truncating `%` is written out as `Statistics.JsRem`.
- Functions that read the clock take the current time as a parameter. This
  applies to `now` in the game hook and in durations, and to the `lastUpdated`
  text of a merge.
- A `window.confirm` answer becomes a `confirmed: bool` parameter.
- A fresh game id becomes a `newId` parameter.
- `toISOString` of a CSV timestamp becomes an `iso: int -> string` parameter.

The frequency bookkeeping is stated against one fold, `Storage.Applied`:

- The hook's invariant is `GameState.Consistent`: the all-time frequency map
  equals the recount of all draws, game ids are distinct, at most one game
  runs, and the running game has no repeated draw.
- Every transition of `GameState.GameState` keeps that invariant.

Where the written description of the application and the code disagree, the
model follows the code:

- The hook reports as least frequent number the last entry of the ascending
  sort, as the code computes it (`UseStats.LeastFrequentAsWritten`, used by
  `UseStats.ComputeStats`). The intended value is `UseStats.LeastFrequent`.
  See Findings.
- Numbers outside 1..90 fall into the last chart column.
- The label of the second quine is the mis-encoded text the code holds
  ("2Ã¨me Quine", the UTF-8 bytes of 'è' read one by one), not "2ème Quine".
- No deviation from the uniform share is computed for decades.
- The column and decade buckets are computed in different places:
  - `UseStats` computes the decade buckets.
  - The chart computes the column buckets.
  - The detail view computes its own decade table from one game's draws.

## Model

| member | source | states |
|---|---|---|
| Config.DecadesShape | src/constants/config.ts:75-85 | nine decades, from 1 to 90, contiguous, ten numbers each |
| Config.DecadeBounds | src/constants/config.ts:75-85 | decade i covers 10i+1 .. 10i+10 |
| Config.GridCoversNumbers | src/constants/config.ts:6-18 | the 9 x 10 grid covers 1..90; TOP_FLOP_COUNT is 15 and the import limit 5 MiB (lines 72, 91) |
| Config.DecadeOfNumber | src/constants/config.ts:75-85 | each number of 1..90 lies in exactly one decade, the one at (n-1)/10 |
| GameTypes.AllNumbersAppend | src/utils/storage.ts:138-142 | the draws of all games grow by the appended game's draws |
| GameTypes.AllNumbersMember | src/utils/storage.ts:138-142 | a number is among all draws iff some game drew it |
| GameTypes.AllNumbersUpdate | src/hooks/useGameState.ts:126-136 | replacing one game trades its draws' counts for the new game's |
| GameTypes.ActiveIndex | src/hooks/useGameState.ts:24-33 | the first game flagged active, or none iff no game is active |
| Guards.GuardsRejectNonObjects | src/types/game.ts:188-240 | null and non-objects fail all three guards |
| Guards.MancheDrawsInRange | src/types/game.ts:197-198 | every draw of an accepted manche is a number in 1..90 |
| Guards.MancheRejectsBadDraw | src/types/game.ts:197-198 | one draw that is not a number in 1..90 makes an accepted manche fail |
| Guards.OddMancheAccepted | src/types/game.ts:188-202 | a manche with repeated and fractional draws, a NaN round number and milestones past its draws is accepted |
| Guards.GameNeedsEveryManche | src/types/game.ts:217-218 | an accepted game has only accepted manches, and one bad manche makes it fail |
| Guards.FrequencyBarelyChecked | src/types/game.ts:235 | the frequency field is accepted iff it is null or of type object (arrays too) |
| Guards.StatsGamesAccepted | src/types/game.ts:233-234 | every game of accepted statistics is an accepted game |
| Storage.UpdateFrequency | src/utils/storage.ts:111-130 | the loop over a copy equals the fold `Applied` of the increment or floored decrement |
| Storage.IncrementAddsOccurrences | src/utils/storage.ts:118-121 | incrementing adds each number's occurrences; a key is present iff it was or occurs |
| Storage.DecrementFloorsAtZero | src/utils/storage.ts:122-125 | decrementing subtracts occurrences, floors at 0, deletes keys reaching 0 |
| Storage.UntouchedKeysKept | src/utils/storage.ts:116-127 | keys not among the numbers keep presence and value |
| Storage.IncrementThenDecrement | src/utils/storage.ts:111-130 | adding then removing a number restores the map when its value was absent or at least 1 |
| Storage.RecountIsCountMap | src/utils/storage.ts:135-145 | a recount maps each drawn number to its occurrence count |
| Storage.RecountOfSameDraws | src/utils/storage.ts:135-145 | a recount depends only on how often each number was drawn |
| Storage.RecountAfterIncrement | src/utils/storage.ts:111-145 | incrementing a recount by one draw is the recount with that draw added |
| Storage.RecountAfterDecrement | src/utils/storage.ts:111-145 | decrementing a recount by one draw is the recount with one copy taken out |
| Storage.AppliedAppend | src/utils/storage.ts:118-127 | the fold over one more number is one more step |
| Storage.AppliedConcat | src/utils/storage.ts:118-127 | the fold over a concatenation is the fold over the parts in turn |
| Storage.RecalculateFrequency | src/utils/storage.ts:135-145 | the nested loop equals the increment fold over all draws from the empty map |
| Storage.NonEmptyHasKey | src/hooks/useStats.ts:25-28 | a non-empty map has a key (used to total a map) |
| Storage.MapTotalRemove | src/hooks/useStats.ts:25-28 | a map's value total does not depend on which key is taken first |
| Storage.CountMapTotal | src/hooks/useStats.ts:25-28 | the values of a recount add up to the number of draws |
| Storage.RecountCounts | src/utils/storage.ts:135-145 | recount: count per number, absent iff never drawn, values summing to all draws |
| Storage.RecountIsFoldOfIncrements | src/utils/storage.ts:111-145 | the recount equals updateFrequency's increment applied game after game |
| Storage.InitializeGlobalStats | src/utils/storage.ts:11-19 | no games, no game played, the empty map (the recount of no games, total 0) |
| GameState.DefaultNameReadsBack | src/hooks/useGameState.ts:64-68 | the name given, or "Partie #" and a number reading back as games played + 1; never empty |
| GameState.InitialStatsConsistent | src/utils/storage.ts:11-19 | the initial statistics satisfy the invariant, with no game running |
| GameState.EditWhereDistinct | src/hooks/useGameState.ts:126-136 | with distinct ids, editing by game k's id edits game k only |
| GameState.EditKeepsActive | src/hooks/useGameState.ts:126-178 | adding or withdrawing draws does not change which game is active |
| GameState.ReplaceKeepsShape | src/hooks/useGameState.ts:126-136 | replacing a game by one with the same id keeps ids distinct, one active game and no repeated draw |
| GameState.AppendKeepsConsistent | src/hooks/useGameState.ts:109-141 | addNumber's update keeps the frequency map equal to the recount, and the invariant |
| GameState.WithdrawKeepsConsistent | src/hooks/useGameState.ts:146-183 | removeNumber's update keeps the invariant and removes the number from the running game |
| GameState.DropLastKeepsConsistent | src/hooks/useGameState.ts:188-208 | removeLastNumber's update keeps the invariant |
| GameState.DropLastStep | src/hooks/useGameState.ts:188-208 | removeLastNumber leaves the same game running and keeps the invariant |
| GameState.FinishKeepsConsistent | src/hooks/useGameState.ts:89-104 | ending the running game keeps the invariant |
| GameState.FinishLeavesNoneRunning | src/hooks/useGameState.ts:89-104 | after endGame no game runs, and the ids are unchanged |
| GameState.StartKeepsConsistent | src/hooks/useGameState.ts:41-79 | appending a fresh game with no draws keeps the invariant; it is the active one |
| GameState.StartNewGameKeepsConsistent | src/hooks/useGameState.ts:41-79 | closing the running game then appending a fresh one keeps the invariant, the new game active |
| GameState.AppendThenDropLast | src/hooks/useGameState.ts:109-208 | drawing a number then removing the last draw restores games and frequency map |
| GameState.GameState.constructor | src/hooks/useGameState.ts:21-28 | the hook's state is the given statistics; consistent statistics give a valid state |
| GameState.GameState.ActiveGame | src/hooks/useGameState.ts:24-33 | an active game from the list, or none iff no game is active |
| GameState.GameState.IsNumberDrawn | src/hooks/useGameState.ts:213-218 | true iff there is an active game and it drew the number |
| GameState.GameState.GameDuration | src/hooks/useGameState.ts:223-234 | present iff a game is active; from its start to its end once finished, to now while unfinished |
| GameState.GameState.AddNumber | src/hooks/useGameState.ts:109-141 | accepted iff a game runs, 1..90 and not yet drawn; then appended and counted once; invariant kept |
| GameState.GameState.RemoveNumber | src/hooks/useGameState.ts:146-183 | done iff drawn in the running game and confirmed; then withdrawn and decremented; invariant kept |
| GameState.GameState.RemoveLastNumber | src/hooks/useGameState.ts:188-208 | done iff the running game has draws; the last draw dropped and decremented; invariant kept |
| GameState.GameState.EndGame | src/hooks/useGameState.ts:89-104 | the running game gets an end time and stops; nothing otherwise; invariant kept, no game runs |
| GameState.GameState.StartNewGame | src/hooks/useGameState.ts:38-84 | declined while a game runs: nothing; else closes it, appends the new active game and counts it |
| Statistics.JsRem | src/components/parties/PartyDetails.tsx:35-36 | JavaScript `%`: Euclidean for a non-negative dividend, in (-b, 0] otherwise |
| Statistics.MulAtLeast | src/utils/statistics.ts:24-31 | a multiple of d by k >= 1 is at least d (used for the unique division) |
| Statistics.DivModUnique | src/utils/statistics.ts:24-31 | quotient and remainder are the unique split with remainder in 0..d-1 |
| Statistics.DurationPartsSplit | src/utils/statistics.ts:24-31 | formatDuration's fields: minutes and seconds below 60, recomposing the whole seconds |
| Statistics.DigitsValueLeadingZeros | src/utils/statistics.ts:28-30 | zero padding does not change a decimal value |
| Statistics.ZerosValue | src/utils/statistics.ts:28-30 | a run of zeros reads as 0 |
| Statistics.Pad2ReadsBack | src/utils/statistics.ts:28-30 | a field below 100 pads to two digits reading back as its value |
| Statistics.Pad2ReadsBackAny | src/utils/statistics.ts:28-30 | any field pads to at least two digits reading back as its value |
| Statistics.FormatDurationFields | src/utils/statistics.ts:24-31 | `HH:MM:SS` of the split fields; minutes and seconds exactly two digits |
| Statistics.LengthsSumToDraws | src/utils/statistics.ts:65-70 | the reduce over lengths counts every draw |
| Statistics.AverageNumbersBetween | src/utils/statistics.ts:65-70 | 0 without games; otherwise draws per game, between the fewest and the most |
| Statistics.Durations | src/utils/statistics.ts:75-86 | one duration per finished game with an end time |
| Statistics.AverageDurationIgnoresUnfinished | src/utils/statistics.ts:75-86 | an unfinished game anywhere does not change the average |
| Statistics.AverageDurationBetween | src/utils/statistics.ts:75-86 | 0 without finished games; otherwise between the shortest and longest |
| Statistics.DistinctMembers | src/utils/statistics.ts:91-100 | `Array.from(new Set(s))`: no repeats, same members |
| Statistics.DistinctOrder | src/utils/statistics.ts:91-100 | each value where it first occurs: listed in the order of first positions |
| Statistics.CommonNumbersMembers | src/utils/statistics.ts:91-100 | common iff there are games and every game drew it; no repeats |
| Statistics.CommonNumbersOrder | src/utils/statistics.ts:91-100 | listed in the order of their first draws in the first game |
| Statistics.UniqueNumbersMembers | src/utils/statistics.ts:105-114 | the target's draws, with all copies, that no other game drew |
| Statistics.UniqueNumbersInOrder | src/utils/statistics.ts:105-114 | a subsequence of the target's draws: their order is kept |
| Statistics.UniqueIsNotCommon | src/utils/statistics.ts:91-114 | a number unique to the target is not common to it and the others |
| Statistics.DateOrdersArePreorders | src/utils/statistics.ts:145-166 | the date and draw-count comparators are total preorders |
| Statistics.MostRecentGamesShape | src/utils/statistics.ts:119-123 | min(count, n) games, from the list, newest first |
| Statistics.MostRecentGamesCutoff | src/utils/statistics.ts:119-123 | no game left out is newer than the oldest kept |
| Statistics.SearchGamesMembers | src/utils/statistics.ts:128-140 | blank query keeps all; else exactly the games matching name, date or id, with multiplicity |
| Statistics.SearchGamesIdempotent | src/utils/statistics.ts:128-140 | searching again with the same query changes nothing |
| Statistics.NameOrdersArePreorders | src/utils/statistics.ts:145-166 | the name comparators are total preorders |
| Statistics.ComparatorIsPreorder | src/utils/statistics.ts:145-166 | every sort option's comparator is a total preorder |
| Statistics.SortGamesIsSortedPermutation | src/utils/statistics.ts:145-166 | a permutation of the input, sorted by the option's comparator |
| Statistics.SortGamesOrders | src/utils/statistics.ts:145-166 | pairwise: draw counts non-increasing / non-decreasing, dates newest / oldest first |
| UseStats.Percentage | src/hooks/useStats.ts:41 | count * 100 / total, or 0 when nothing was drawn |
| UseStats.AveragePerGame | src/hooks/useStats.ts:31-34 | total per game played, or 0 when none was played |
| UseStats.TotalNumbersDrawn | src/hooks/useStats.ts:25-28 | the reduce equals the sum of the map's values |
| UseStats.SumGetFrame | src/hooks/useStats.ts:39-40 | counts of 1..hi depend only on those keys |
| UseStats.MapTotalIsSumGet | src/hooks/useStats.ts:25-40 | with keys in 1..hi the map total is the sum of the counts of 1..hi |
| UseStats.LastGameWith | src/hooks/useStats.ts:44-50 | the reverse scan finds the latest game drawing n, none iff no game does |
| UseStats.GamesWith | src/hooks/useStats.ts:53-55 | exactly the ids of the games that drew n |
| UseStats.GamesWithAppend | src/hooks/useStats.ts:53-55 | ids listed in game order |
| UseStats.BuildFrequencyData | src/hooks/useStats.ts:39-64 | the loop builds the 90-row table |
| UseStats.FrequencyTableShape | src/hooks/useStats.ts:39-64 | rows 1..90 ascending, stored count or 0, percentage of the total |
| UseStats.LastDrawnIsLatestGame | src/hooks/useStats.ts:44-50 | lastDrawn absent iff never drawn, else the date of the latest game drawing it |
| UseStats.SumCountsAppend | src/hooks/useStats.ts:84 | the count total of a concatenation adds up |
| UseStats.TableCountsSumToTotal | src/hooks/useStats.ts:25-64 | with keys in 1..90 the table's counts add up to the total drawn |
| UseStats.CountOrdersArePreorders | src/hooks/useStats.ts:67-75 | both count comparators are total preorders |
| UseStats.SortByCountDescWithTies | src/hooks/useStats.ts:67 | descending count, equal counts in ascending number |
| UseStats.SortByCountAscWithTies | src/hooks/useStats.ts:75 | ascending count, equal counts in ascending number |
| UseStats.TopNumbersRanking | src/hooks/useStats.ts:67-70 | 15 entries from the table, descending count, ties by number |
| UseStats.TopNumbersCutoff | src/hooks/useStats.ts:67-70 | nothing left out beats the last top entry |
| UseStats.FlopNumbersRanking | src/hooks/useStats.ts:73-76 | at most 15 (15 when 15 were drawn), ascending count, ties by number |
| UseStats.SortDrawnWithTies | src/hooks/useStats.ts:73-75 | the drawn rows sorted ascending keep ties in number order |
| UseStats.DrawnMember | src/hooks/useStats.ts:73 | an entry is drawn iff in the table with positive count |
| UseStats.DrawnMembers | src/hooks/useStats.ts:73 | the drawn rows are the rows with a positive count |
| UseStats.FlopNumbersDrawn | src/hooks/useStats.ts:73-76 | flop entries come from the table and were drawn |
| UseStats.FlopNumbersCutoff | src/hooks/useStats.ts:73-76 | no drawn entry left out is rarer than the last flop entry |
| UseStats.MostFrequentIsSmallestOfMax | src/hooks/useStats.ts:97-100 | present iff some count is positive; the smallest number of maximal count |
| UseStats.DrawnEmpty | src/hooks/useStats.ts:73 | nothing drawn iff no count is positive |
| UseStats.LeastFrequentAsWrittenIsLargestOfMax | src/hooks/useStats.ts:102-103 | as written: the largest number of MAXIMAL count among drawn rows |
| UseStats.LeastFrequentIsSmallestOfMin | src/hooks/useStats.ts:102-103 | corrected: present iff drawn; the smallest number of minimal count |
| UseStats.NumberIdentifiesEntry | src/hooks/useStats.ts:57-63 | distinct table rows have distinct numbers |
| UseStats.LeastFrequentAsWrittenDisagrees | src/hooks/useStats.ts:73-103 | two drawn counts differ: the as-written value differs from the least frequent |
| UseStats.LeastFrequentAsWrittenCounterexample | src/hooks/useStats.ts:73-103 | 1 drawn once, 2 thrice: least frequent is 1, code does not report 1 |
| UseStats.InRangeMembers | src/hooks/useStats.ts:80-82 | the decade filter keeps exactly the rows in range |
| UseStats.InRangeMember | src/hooks/useStats.ts:80-82 | one row is kept iff it is in the table and in range |
| UseStats.InRangeKeepsAscending | src/hooks/useStats.ts:80-82 | the filter keeps ascending numbers |
| UseStats.DecadeStatsOf | src/hooks/useStats.ts:79-94 | one record per configured decade, with its label |
| UseStats.DecadeNumbersAreDrawnMembers | src/hooks/useStats.ts:86 | a decade lists exactly its drawn numbers, ascending |
| UseStats.InRangeSplit | src/hooks/useStats.ts:80-84 | splitting a range splits its summed count |
| UseStats.InRangeEmpty | src/hooks/useStats.ts:80-82 | an empty range keeps no row |
| UseStats.InRangeAll | src/hooks/useStats.ts:80-82 | a range covering every row keeps them all |
| UseStats.BucketSumIsPrefix | src/hooks/useStats.ts:79-94 | the first k buckets hold the rows 1..10k |
| UseStats.DecadePrefixSum | src/hooks/useStats.ts:79-94 | summed counts of the first k decades equal the first k buckets |
| UseStats.DecadeCount | src/hooks/useStats.ts:79-84 | decade i counts the rows 10i+1 .. 10i+10 |
| UseStats.DecadeCountsSumToTotal | src/hooks/useStats.ts:79-94 | with rows in 1..90 the decade counts add up to the table total |
| UseStats.EvolutionOf | src/hooks/useStats.ts:106-113 | exactly the finished games, with id, name, draw count and date |
| UseStats.EvolutionIsFilterMap | src/hooks/useStats.ts:106-113 | one point per finished game, in the games' order: the map over the filter |
| UseStats.ComputeStats | src/hooks/useStats.ts:22-113 | the hook's record, field by field, from the functions above; the least frequent number as the code computes it |
| QuineAnalysis.AnalyzeMancheQuines | src/utils/quineAnalysis.ts:27-86 | kept positions reported per kind; milestones the sorted pushes, well formed |
| QuineAnalysis.PushIfKept | src/utils/quineAnalysis.ts:35-42 | one block: pushes the kind's entry iff its position is kept |
| QuineAnalysis.AnalysisMilestones | src/utils/quineAnalysis.ts:35-75 | sorted milestones: one per kept kind, by position, ties in kind order |
| QuineAnalysis.PushedAtMostFour | src/utils/quineAnalysis.ts:35-72 | at most four entries |
| QuineAnalysis.PushedInKindOrder | src/utils/quineAnalysis.ts:35-72 | pushed in kind order |
| QuineAnalysis.PushedEntries | src/utils/quineAnalysis.ts:35-72 | each entry is its kind's milestone (position and draw there, or 0) |
| QuineAnalysis.PushedExactlyKept | src/utils/quineAnalysis.ts:35-72 | a kind's entry is pushed iff its position is present, non-zero and at most the draw count |
| QuineAnalysis.SortedMilestones | src/utils/quineAnalysis.ts:75 | the stable sort keeps the entries, by position, ties in kind order, kinds distinct |
| QuineAnalysis.Positions | src/utils/quineAnalysis.ts:97-111 | at most one position per round |
| QuineAnalysis.PositionsMembers | src/utils/quineAnalysis.ts:97-111 | collected iff some round records it and it is positive |
| QuineAnalysis.CollectedPositions | src/utils/quineAnalysis.ts:94-111 | only completed rounds contribute |
| QuineAnalysis.StatsOfBounds | src/utils/quineAnalysis.ts:113-165 | total = count; average, fastest, slowest absent iff none; min <= average <= max |
| QuineAnalysis.CompletedIgnoresActive | src/utils/quineAnalysis.ts:94 | the filter depends only on completed rounds |
| QuineAnalysis.ActiveManchesIgnored | src/utils/quineAnalysis.ts:92-165 | changing an active round does not change the statistics |
| QuineAnalysis.StatsDoNotCheckDrawCount | src/utils/quineAnalysis.ts:97-99 | a quine past the draws is ignored by the analysis but counted by the statistics |
| QuineAnalysis.MilestoneLabel | src/utils/quineAnalysis.ts:171-182 | a non-empty label per kind, the texts as written |
| QuineAnalysis.DeuxiemeLabelIsMisEncoded | src/utils/quineAnalysis.ts:175-176 | the second label is "2ème Quine" with its 'è' as two UTF-8 bytes read as characters, so not "2ème Quine" |
| QuineAnalysis.MilestoneLabelInjective | src/utils/quineAnalysis.ts:171-182 | distinct kinds have distinct labels |
| ImportStats.ErrorTexts | src/utils/import.ts:15-22 | the size message reads 5MB; the two messages differ |
| ImportStats.ValidateImportFile | src/utils/import.ts:11-28 | valid iff within size and JSON; size error then type error, each iff its check fails |
| ImportStats.CountDraws | src/utils/import.ts:82-84 | innermost loop: increment fold over one manche's draws |
| ImportStats.CountManches | src/utils/import.ts:81-85 | middle loop: increment fold over a game's manche draws |
| ImportStats.RecountManches | src/utils/import.ts:78-86 | the recount of every manche draw of every game |
| ImportStats.MergeStats | src/utils/import.ts:59-95 | existing games then new ones; recounted map; games counted; creation date kept |
| ImportStats.NewImportsCount | src/utils/import.ts:67-75 | an imported game is appended as often as it occurs iff its id is unknown |
| ImportStats.MergedIds | src/utils/import.ts:64-75 | merged ids = existing ids + imported ids |
| ImportStats.MergeKnownGamesOnly | src/utils/import.ts:64-75 | importing only known ids leaves the games as they were |
| ImportStats.MergeWithItself | src/utils/import.ts:64-75 | merging statistics with themselves keeps the games |
| ImportStats.MergedFrequencyCounts | src/utils/import.ts:78-86 | each number maps to its manche-draw count, absent iff never drawn |
| CsvExport.ExportAllGamesAsCsv | src/utils/export.ts:83-109 | the nested loops give the CSV of all games' rows |
| CsvExport.HeaderIsJoinedNames | src/utils/export.ts:100-102 | the header is the five column names joined by commas |
| CsvExport.HeaderLacksNewline | src/utils/export.ts:100-102 | the header has no newline |
| CsvExport.RowLineText | src/utils/export.ts:103-105 | id, quoted raw name, number, order, timestamp, comma-joined |
| CsvExport.RowLineCommas | src/utils/export.ts:103-105 | no escaping: commas of id and name add separators |
| CsvExport.RowLineCharCount | src/utils/export.ts:103-105 | every character's count on a line, from its fields plus separators and quotes |
| CsvExport.CsvStartsWithHeader | src/utils/export.ts:101-108 | the text starts with the header line |
| CsvExport.CsvLineCount | src/utils/export.ts:101-108 | one newline per row when fields hold none |
| CsvExport.AllRowsNumbers | src/utils/export.ts:86-98 | one row per draw, in draw order |
| CsvExport.AllRowsOfGame | src/utils/export.ts:86-98 | draw i of game k: its ids, the draw, order i+1, start + 30 s per step |
| CsvExport.ExportAllOfOneGame | src/utils/export.ts:41-61 | one game's statistics export as that game's own CSV |
| CsvExport.ExportAllLineCount | src/utils/export.ts:83-109 | with newline-free fields, one line per draw after the header |
| CsvExport.RowSource | src/utils/export.ts:86-98 | every row comes from one draw of one game |
| CsvExport.RowGame | src/utils/export.ts:86-98 | every row carries its game's id and name |
| ColumnDistribution.ColumnIndex | src/components/stats/charts/ColumnDistributionChart.tsx:60-68 | a column among nine |
| ColumnDistribution.ColumnIndexByTens | src/components/stats/charts/ColumnDistributionChart.tsx:60-68 | the tens digit for 1..79, the last column for anything else |
| ColumnDistribution.ColumnRanges | src/components/stats/charts/ColumnDistributionChart.tsx:44-68 | within 1..90, column k is the range of its label |
| ColumnDistribution.ColumnCountAppend | src/components/stats/charts/ColumnDistributionChart.tsx:70 | a row adds its count to its column only |
| ColumnDistribution.ColumnNumbersAppend | src/components/stats/charts/ColumnDistributionChart.tsx:71-73 | a drawn row appends its number to its column only |
| ColumnDistribution.ColumnAppendAt | src/components/stats/charts/ColumnDistributionChart.tsx:56-74 | one row updates column k iff it belongs there |
| ColumnDistribution.ColumnsAppend | src/components/stats/charts/ColumnDistributionChart.tsx:56-74 | one row changes its own column's record only |
| ColumnDistribution.NoRowsColumns | src/components/stats/charts/ColumnDistributionChart.tsx:44-54 | the initial records are the columns of no rows |
| ColumnDistribution.BucketColumns | src/components/stats/charts/ColumnDistributionChart.tsx:44-74 | the loop gives each column its rows' count and drawn numbers |
| ColumnDistribution.BucketStep | src/components/stats/charts/ColumnDistributionChart.tsx:56-74 | one loop step updates the right record |
| ColumnDistribution.FirstColumnsAppend | src/components/stats/charts/ColumnDistributionChart.tsx:70 | a row adds to the first K columns iff its column is below K |
| ColumnDistribution.AllColumnsTotal | src/components/stats/charts/ColumnDistributionChart.tsx:56-77 | every row's count lands in exactly one column |
| ColumnDistribution.ColumnTotalPrefix | src/components/stats/charts/ColumnDistributionChart.tsx:77 | the reduce over K columns is their summed counts |
| ColumnDistribution.ColumnsTotal | src/components/stats/charts/ColumnDistributionChart.tsx:77 | the total is the sum of all table counts |
| ColumnDistribution.ColumnNumbersMember | src/components/stats/charts/ColumnDistributionChart.tsx:71-73 | listed in column k iff a drawn row carries it and it belongs to k |
| ColumnDistribution.MaxColumn | src/components/stats/charts/ColumnDistributionChart.tsx:84-86 | a maximal column, the first of them |
| ColumnDistribution.MinColumn | src/components/stats/charts/ColumnDistributionChart.tsx:87-89 | a minimal column, the first of them |
| PartiesList.SortControls.constructor | src/components/parties/PartiesList.tsx:31-32 | sorted by date, descending, at first |
| PartiesList.SortControls.ToggleSortOrder | src/components/parties/PartiesList.tsx:69-71 | the other direction, same field |
| PartiesList.SortControls.HandleSortFieldChange | src/components/parties/PartiesList.tsx:73-80 | same field toggles; a new field is set, descending |
| PartiesList.ChooseTwice | src/components/parties/PartiesList.tsx:69-80 | the same field twice restores the direction; a new field twice ends ascending |
| PartiesList.SearchedCount | src/components/parties/PartiesList.tsx:38-40 | keeps exactly the games whose lowered name contains the lowered query |
| PartiesList.EmptyIsContained | src/components/parties/PartiesList.tsx:38-40 | every text contains the empty query |
| PartiesList.EmptyQueryKeepsAll | src/components/parties/PartiesList.tsx:38-40 | an empty query keeps the whole list |
| PartiesList.DrawCountIsAllDraws | src/components/parties/PartiesList.tsx:54-55 | the reduce counts all draws of the game's manches |
| PartiesList.ComparisonIsPreorder | src/components/parties/PartiesList.tsx:43-58 | each field's comparison is an antisymmetric total preorder |
| PartiesList.ComparatorIsPreorder | src/components/parties/PartiesList.tsx:43-60 | so is the comparator in either direction |
| PartiesList.FilteredAndSortedIsSortedPermutation | src/components/parties/PartiesList.tsx:36-64 | a permutation of the searched games, sorted by the comparator |
| PartiesList.FilteredAndSortedOrders | src/components/parties/PartiesList.tsx:43-60 | ascending never puts a larger field first; descending never a smaller |
| PartiesList.DescIsReversedAsc | src/components/parties/PartiesList.tsx:60 | without ties the descending list is the ascending one reversed |
| PartiesList.CountsCoverAllGames | src/components/parties/PartiesList.tsx:66-67 | active and completed counts add up to all games |
| PartyDetails.DetailClockAgrees | src/components/parties/PartyDetails.tsx:33-36 | the view's split equals `HH:MM:SS`'s; minutes and seconds below 60, recomposing the seconds |
| PartyDetails.FormatDurationLongForm | src/components/parties/PartyDetails.tsx:38-44 | hour form from one hour, minute form from one minute, else seconds |
| PartyDetails.DecadeStatsShape | src/components/parties/PartyDetails.tsx:48-72 | nine rows 10k+1..10k+10 counting the game's draws there; share 0 without draws |
| PartyDetails.DrawsBetweenAppend | src/components/parties/PartyDetails.tsx:62-64 | one more draw counts in a range iff it lies there |
| PartyDetails.FirstDecadesAppend | src/components/parties/PartyDetails.tsx:61-64 | one more draw adds to the first K decades iff in 1..10K |
| PartyDetails.FirstDecadesHoldAll | src/components/parties/PartyDetails.tsx:61-64 | with draws in 1..10K the first K decades hold all |
| PartyDetails.DecadePrefixDraws | src/components/parties/PartyDetails.tsx:61-71 | summed row counts of the first K rows equal the first K decades |
| PartyDetails.DecadeDrawsSumToDrawn | src/components/parties/PartyDetails.tsx:48-72 | with draws in 1..90 the rows' counts add up to the game's draws |
| PartyDetails.NumbersGrid | src/components/parties/PartyDetails.tsx:75-81 | rows of ten (last shorter) flattening back to the draws |
| PartyDetails.GridCell | src/components/parties/PartyDetails.tsx:421-424 | cell (r, c) shows draw 10r + c, at 1-based position 10r + c + 1 |
| PartyDetails.GridFlattens | src/components/parties/PartyDetails.tsx:75-81 | the first m rows flatten to the first 10m draws |
| PartyDetails.AvgTimeBetweenDraws | src/components/parties/PartyDetails.tsx:90-95 | absent below two draws; else duration shared over the draws |
| QuickInput.QuickInputState.constructor | src/components/game/QuickInput.tsx:19-20 | empty text, no message |
| QuickInput.QuickInputState.HandleChange | src/components/game/QuickInput.tsx:76-91 | empty or one or two digits: kept, message cleared; otherwise ignored |
| QuickInput.QuickInputState.ValidateAndSubmit | src/components/game/QuickInput.tsx:31-67 | submits, shows and clears as `Check` decides; edit invariant kept |
| QuickInput.CheckSubmits | src/components/game/QuickInput.tsx:31-67 | submits iff the trimmed text parses to an undrawn 1..90; a message otherwise; blank keeps the text |
| QuickInput.CheckMessages | src/components/game/QuickInput.tsx:34-60 | each rejection has its own message, iff its condition |
| QuickInput.CheckAfterEdits | src/components/game/QuickInput.tsx:31-91 | after the edit rules there is no NaN case; submits iff the digits are an undrawn 1..90 |
| QuickInput.AcceptedTextParses | src/components/game/QuickInput.tsx:80-87 | an accepted non-empty text needs no trim and parses to its value, at most 99 |
| QuickInput.MessagesDiffer | src/components/game/QuickInput.tsx:35-56 | the four messages are pairwise different |
| Sorting.Sort | src/hooks/useStats.ts:67 | `Array.prototype.sort`: same length and elements |
| Sorting.SortIsSorted | src/utils/statistics.ts:145-166 | sorted under a total-preorder comparator |
| Sorting.SortBreaksTiesByInputOrder | src/utils/quineAnalysis.ts:75 | stable: ties keep input order |
| Sorting.SortNegatedIsReverse | src/components/parties/PartiesList.tsx:60 | sorting by the negated comparator without ties reverses the sort |
| Text.StrCompareAntisymmetric | src/components/parties/PartiesList.tsx:51 | the name comparison is antisymmetric, 0 only for equal names |
| Text.StrCompareTransitive | src/components/parties/PartiesList.tsx:51 | the name comparison is transitive |
| Text.ParseIntOfDigits | src/components/game/QuickInput.tsx:39 | `parseInt` of a run of digits is its decimal value |
| Text.IntToStringReadsBack | src/hooks/useGameState.ts:68 | `parseInt(String(i))` is `i` |
| Text.PadStart | src/utils/statistics.ts:28-30 | `padStart`: the width, the text at the end, the fill before it |

The functions that only compute a value are specified by the lemmas about
them, which the table lists:

- `Statistics.SearchGames`: `SearchGamesMembers`, `SearchGamesIdempotent`.
- `Statistics.SortGames`: `SortGamesIsSortedPermutation`, `SortGamesOrders`.
- `Statistics.FormatDuration`: `FormatDurationFields`.
- `Statistics.MostRecentGames`: `MostRecentGamesShape`, `MostRecentGamesCutoff`.
- `Statistics.CommonNumbers`: `CommonNumbersMembers`, `CommonNumbersOrder`.
- `Statistics.UniqueNumbers`: `UniqueNumbersMembers`, `UniqueNumbersInOrder`.
- `Statistics.AverageNumbersPerGame`: `AverageNumbersBetween`.
- `Statistics.AverageDuration`: `AverageDurationIgnoresUnfinished`,
  `AverageDurationBetween`.
- `UseStats.TopNumbers`: `TopNumbersRanking`, `TopNumbersCutoff`.
- `UseStats.FlopNumbers`: `FlopNumbersRanking`, `FlopNumbersDrawn`,
  `FlopNumbersCutoff`.
- `UseStats.MostFrequent`: `MostFrequentIsSmallestOfMax`.
- `UseStats.LeastFrequent`: `LeastFrequentIsSmallestOfMin`.
- `UseStats.LeastFrequentAsWritten`: `LeastFrequentAsWrittenIsLargestOfMax`.
- `UseStats.FrequencyTable`: `FrequencyTableShape`.
- `QuineAnalysis.CalculateQuineStats`: `StatsOfBounds`, `CollectedPositions`,
  `ActiveManchesIgnored`, `StatsDoNotCheckDrawCount`.
- `CsvExport.ExportGameAsCsv`: `ExportAllOfOneGame` and the `CsvText` lemmas.
- `Guards.IsManche`, `Guards.IsLotoGame`, `Guards.IsGlobalStats`: the
  `Guards` lemmas.
- `QuickInput.Check`: `CheckSubmits`, `CheckMessages`, `CheckAfterEdits`.
- `PartyDetails.FormatDurationLong`: `FormatDurationLongForm`.
- `PartyDetails.DecadeStats`: `DecadeStatsShape`.
- `PartiesList.FilteredAndSorted`: `FilteredAndSortedIsSortedPermutation`,
  `FilteredAndSortedOrders`.
- `Storage.Step` and `Storage.Applied`: `IncrementAddsOccurrences`,
  `DecrementFloorsAtZero`, `UntouchedKeysKept`, `AppliedAppend`,
  `AppliedConcat`.
- `GameState.NewGame`: `StartKeepsConsistent`; `GameState.DefaultName`:
  `DefaultNameReadsBack`.
- `ImportStats.NewImports`: `NewImportsCount`.
- `ColumnDistribution.Columns`: `ColumnsAppend`, `NoRowsColumns`,
  `ColumnsTotal`, and the loop `BucketColumns`.

## Left out

- Browser and I/O code is not modelled:
  - storage load, save, clear, backup and restore, and the storage size;
  - JSON export, downloads and the clipboard;
  - `parseImportedJSON` and `importFromFile`, which read a file and call
    `isGlobalStats`;
  - React rendering, theme, tutorial and layout components, and chart drawing.
- Clock, randomness and dialogs are parameters:
  - `Date.now()` and `new Date()` become `now`;
  - the uuid becomes `newId`;
  - `window.confirm` becomes `confirmed`;
  - `toISOString` of CSV timestamps becomes `iso`.
- `GameState.GameState.StartNewGame` assumes a fresh `newId` (not already a
  game id), as a random uuid is, to prove the invariant afterwards.
- Dates are not parsed. `new Date(x).getTime()` is the `ms` field of an
  `Instant`, given with its ISO text.
- Floating point is exact. Percentages, averages and durations are `real`
  quotients. `toFixed` and the percentage strings are not modelled.
- Strings are sequences of Unicode code points, where JavaScript strings are
  sequences of UTF-16 code units. A character outside the Basic Multilingual
  Plane, such as an emoji, is one element here and two in JavaScript, so
  lengths, indices and `slice` differ on text that contains one.
- `Text.StrCompare` compares code points, where `localeCompare` uses locale
  collation. Even as a plain code-unit comparison it would differ on
  characters outside the Basic Multilingual Plane: U+1F600 sorts after U+FF01
  here, but its leading surrogate 0xD83D sorts before 0xFF01 in UTF-16.
  `ToLower` folds ASCII letters only.
- `calculateGameDuration` is modelled only through `calculateAverageDuration`,
  which counts finished games only. Its null result for a missing or empty
  `startTime` (src/utils/statistics.ts:13) is not modelled, and neither is
  `|| 0` turning a NaN duration into 0: a start time is always an `Instant`
  with a numeric `ms`.
- Statistics.MostRecentGames: the count is a parameter; the default count of
  10 (src/utils/statistics.ts:119) is not modelled.
- Every game carries both a `numbers` list and a `manches` list. The
  `LotoGame` type declares only `manches` (src/types/game.ts:43-64), while
  `startNewGame` creates games with `numbers` only
  (src/hooks/useGameState.ts:66-73). `GameState.NewGame` gives such a game
  empty `manches`. The model therefore does not capture the TypeError that
  src/components/parties/PartiesList.tsx:54-55 and src/utils/import.ts:81
  raise on a game without `manches`, nor a game without `numbers`.
- Not modelled from the statistics utilities (display-only text):
  - `formatRelativeTime`;
  - `getGameSummary`;
  - `getMilestoneColor` (CSS class names).
- The default branch of `sortGames` is unreachable in the model, since
  `SortOption` has six values.
- `ImportStats.MergeStats` does not return `addedCount`; the source never
  reads it.
- Guards do not model JavaScript infinities, or property lookups on arrays,
  such as an array's `length` read as a field.
- Quick entry does not model input focus or the three-second timer that
  clears the message.
- The games list does not model the view mode (grid or list) or the search
  box's state. The query is a parameter.
- Not present in this source, and so not modelled: the gap, timing and parity
  statistics, and the deviation of a decade's share from the uniform share.
- Numbers are unbounded integers. JavaScript's 53-bit integer limit is never
  reached by counts of draws.

## Findings

| source | as written | input that shows it | evidently intended | confidence | as-written member | corrected member |
|---|---|---|---|---|---|---|
| src/hooks/useStats.ts:73-103 | `drawnNumbers` is sorted in place by ascending count for the flop list, and then its LAST entry is read as the least frequent number: the most frequent drawn number, the largest of those tied | number 1 drawn once and number 2 drawn three times: the least frequent is 1, the code reports 2 | the first entry of the ascending sort: the smallest number among the drawn numbers with the lowest count | not executed | UseStats.LeastFrequentAsWritten (UseStats.LeastFrequentAsWrittenIsLargestOfMax, UseStats.LeastFrequentAsWrittenDisagrees, UseStats.LeastFrequentAsWrittenCounterexample) | UseStats.LeastFrequent (UseStats.LeastFrequentIsSmallestOfMin) |
