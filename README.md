# livescore — a Dafny model of the scraper core

livescore follows darts tournaments played on n01darts.com. A scraper reads
the tournament pages. There are two kinds of page: knockout brackets
(`.t_item_container` elements) and round-robin groups (`.rr_table` score
matrices). The scraper turns them into match rows, upserts the rows into a
Supabase `matches` table keyed by `(tournament_id, n01_match_id)`, and marks
matches that vanished from the page as finished. A second parser reads the
per-player statistics table of a Steel tournament. A Next.js front end
groups and sorts the stored matches and groups for display.

This project models that core in Dafny. Each page is given as plain records
holding the texts and attributes the page code reads. The model then follows
the code. It covers:

- the text handling (`trim`, `toLowerCase`, `\s+` replacement, `parseInt`,
  `|| fallback`);
- every regular expression, with its leftmost-first matching;
- the status rules;
- the group matrix walk;
- the referee assignment;
- the store's upsert and bulk finish;
- the statistics column mapping and row filter;
- the `retry`, `groupBy` and `uniqueBy` helpers and the `ScraperStats`
  counter class;
- the front end's grouping and sorting.

Modules:

- `Wrappers`: `Option` and `Result`.
- `Text`: JavaScript string semantics used by the scraper.
  - `String.prototype.trim` is `Trim`. Its whitespace set is `IsSpace`.
  - `toLowerCase` is `Lower`.
  - `parseInt` with and without a radix is `ParseInt` / `ParseIntDecimal`.
  - `x || 0` is `OrZero`.
  - `el?.textContent?.trim() || fallback` is `TextOr`.
  - `includes` is `Contains`.
  - The default `Array.prototype.sort` order on strings is `LexLe`.
- `Seqs`: `filter`/`map` combinations as `FilterMap` and `FilterMapIndexed`, with lemmas about them.
- `Model`: the match `Status`, the `ScrapedMatch` record and the sorted pair id shared by both id generators.
- `Parser` (`scraper/src/parser.js`): match ids, status, player names, scores, station numbers, and the processing of raw match elements.
- `Scraper` (`scraper/src/scraper.js`): bracket matches, group rosters, the score matrix, group status and counts, and the Steel referee assignment.
- `StatsParser` (`scraper/src/statsParser.js`): the tournament id and statistics URL, column mapping, the name-column fallback, row reading and de-duplication.
- `Database` (`scraper/src/database.js`): the `MatchStore` class holds the `matches` table as a map. Its methods are `upsertMatches` and `markMissingMatchesAsFinished`.
- `Utils` (`scraper/src/utils.js`): `uniqueBy`, `groupBy`, `retry`, and the `ScraperStats` class.
- `Frontend` (`frontend/lib/utils.ts`): `formatTime`, `containsText`, and status grouping and station sorting of matches and groups.

The scraper's loops over the page are methods with loop invariants, proved
against the functions that specify them. Examples are `CollectMatches`,
`ReadRoster`, `WalkRow`, `WalkMatrix`, `ScrapeGroup`, `AssignReferees`,
`FindColumn`, `BuildColumnMap`, `NameColumnFallback`, `DedupByName`,
`UniqueBy`, `GroupBy` and `Retry`. The object whose fields change is a
class: `ScraperStats`, and `MatchStore` standing for the database table.

Two things the page supplies become parameters:

- `RawCell.activeBackground` is the outcome of the computed-style test at `scraper/src/scraper.js:364-371`.
- `schemes` is the `REFEREE_SCHEMES` table.

Two things the database supplies become parameters: `fault` is the error
Supabase may return, and the table's state is the `rows` field.

The group matrix walk (`CellMatch` … `WalkMatrix`) is stated for any cell
score reader `readScore`. `GroupOf` and `ScrapeGroup` instantiate it with
`CellScore`, which is the `(\d+)\s*[-–]\s*(\d+)` match of
`scraper/src/scraper.js:374-377`. In the same way, the roster loop
`ReadRoster` is stated for any row step `readRow`, and `ScrapeGroup` passes
`RowPlayer`; the element loop `CollectMatches` is stated for any step
`process`, and `ParseAllMatches` passes `ProcessMatchData`.

## Model

| member | source | states |
|---|---|---|
| Model.SortedPairId | scraper/src/parser.js:16-17 | the id is the two tokens joined by `_vs_`, the one that sorts first in front |
| Model.SortedPairIdSymmetric | scraper/src/scraper.js:208 | swapping the two tokens yields the same id |
| Parser.IdToken | scraper/src/parser.js:13-14 | a cleaned name token contains no whitespace, since each whitespace run becomes `_` |
| Parser.GenerateMatchId | scraper/src/parser.js:12-18 | the id is one player's token, `_vs_`, and the other's, in one of the two orders |
| Parser.GenerateMatchIdSymmetric | scraper/src/parser.js:12-18 | the match id does not depend on which player is listed first |
| Parser.GenerateMatchIdShape | scraper/src/parser.js:12-18 | the id is `s0_vs_s1` where `{s0, s1}` are the two players' tokens, `s0` sorts no later than `s1`, and neither contains whitespace |
| Parser.DetermineMatchStatus | scraper/src/parser.js:25-46 | walkover iff a name contains the word `wo`, `w/o` or `walkover` (any case) or is empty; otherwise active iff the station is a positive number; finished iff there are scores, one of them is positive and there is no station; pending in every other case |
| Parser.WalkoverIgnoresScoresAndStation | scraper/src/parser.js:29-32 | a walkover is decided by the names alone: changing scores, station or `hasScores` keeps it a walkover |
| Parser.RankingLength | scraper/src/parser.js:59 | a match of `\(\d+\)` at a position spans `(`, one or more digits, `)` |
| Parser.CleanPlayerName | scraper/src/parser.js:53-63 | an empty name stays empty; the result has no whitespace at either end and never two whitespace characters in a row |
| Parser.StripRankings | scraper/src/parser.js:59 | the result is never longer than the text |
| Parser.StripRankingsOnlyRemoves | scraper/src/parser.js:59 | stripping only removes characters: none is added and none occurs more often than in the text |
| Parser.StripRankingsWithoutParen | scraper/src/parser.js:59 | text without `(` holds no `(digits)` annotation and is left unchanged |
| Parser.StripRankingsPrefix | scraper/src/parser.js:59 | a prefix without `(` is kept verbatim in front of what the rest becomes |
| Parser.StripRankingsOfRanking | scraper/src/parser.js:59 | a whole `(digits)` annotation is removed |
| Parser.StripRankingsSinglePass | scraper/src/parser.js:59 | the replacement is one global pass, not repeated: `((12)3)` becomes `(3)`, so a ranking can survive |
| Parser.CleanWithoutRankings | scraper/src/parser.js:53-63 | a name without `(` is only trimmed, has its whitespace runs made single spaces, and is trimmed again |
| Parser.CleanRemovesRanking | scraper/src/parser.js:53-63 | a clean single-spaced name followed by ` (digits)` cleans back to the name: the ranking is removed |
| Parser.ParseScore | scraper/src/parser.js:70-91 | a non-zero second score only comes from the first `X - Y` pair of the text; a lone number never sets it |
| Parser.ParseScoreOfPair | scraper/src/parser.js:70-82 | `X`, spaces, `-` or `–`, spaces, `Y` reads as the pair `(X, Y)` |
| Parser.NumberPairAtSpans | scraper/src/parser.js:76-82 | a text made only of digits, spaces, one dash, spaces and digits reads as the two numbers around the dash |
| Parser.NumberPairAtRuns | scraper/src/parser.js:76 | the dash pattern matched at a position yields the maximal digit runs on either side of the dash |
| Parser.ParseScoreOfNumber | scraper/src/parser.js:84-91 | a lone number `n` reads as `(n, 0)` |
| Parser.NoNumberPairInDigits | scraper/src/parser.js:76 | a text of digits only has no dash pair in it |
| Parser.ParseScoreWithoutDigits | scraper/src/parser.js:71-73 | a text without digits (the empty text included) reads as `(0, 0)` |
| Parser.NoDigitsNoPair | scraper/src/parser.js:76 | without digits the dash pattern matches nowhere |
| Parser.NoDigitsNoNumber | scraper/src/parser.js:85 | without digits the single-number pattern matches nowhere |
| Parser.FirstPatternMatch | scraper/src/parser.js:114-121 | none iff every pattern fails; otherwise the value is that of the first pattern that matches |
| Parser.StationNumber | scraper/src/parser.js:101-122 | empty text gives none; a number is the capture of the first pattern that matches, in board/tarcza/station/stanowisko/`#n`/whole-number order; none only when all fail |
| Parser.ParseStationNumber | scraper/src/parser.js:101-122 | empty text gives none; otherwise the result is the number captured by the first of board/tarcza/station/stanowisko/`#n`/whole-number that matches, and none only when all six fail |
| Parser.ProcessMatchData | scraper/src/parser.js:165-221 | dropped iff fewer than two players or both cleaned names are empty; otherwise the id comes from the cleaned names, an empty name shows as `TBD` and forces a walkover, scores are non-negative, and an active match has a station |
| Parser.ProcessedMatchFields | scraper/src/parser.js:181-220 | a processed match carries the scores parsed from the joined score cells (0:0 when there are none), the station read from the board text, the status decided from its names, scores, station and whether either score is positive, the referee only when one is written, and the raw HTML cut to 5000 characters |
| Parser.ParseAllMatches | scraper/src/parser.js:228-243 | a missing or non-array input gives `[]`; otherwise exactly the processed elements that were not dropped, in page order |
| Parser.CollectMatches | scraper/src/parser.js:233-240 | the push loop yields, in order, exactly the non-`null` results of the step on each element |
| Scraper.ReadBracketEntry | scraper/src/scraper.js:142-189 | `hasBoard` iff the board text is non-empty; finished iff either score reaches `parseInt(legs)`; both names are trimmed |
| Scraper.MissingLegsMeansFinished | scraper/src/scraper.js:172-175 | with no `legs` attribute the limit is `parseInt('0')`, so an entry with a non-negative score counts as finished |
| Scraper.UnreadableLegsNeverFinish | scraper/src/scraper.js:175 | when `legs` does not parse (NaN), the entry is never finished |
| Scraper.BracketStatus | scraper/src/scraper.js:197-203 | active iff it has a board and is not finished; finished iff finished; pending iff neither; never walkover |
| Scraper.BracketToken | scraper/src/scraper.js:206-207 | a bracket id token contains no whitespace |
| Scraper.BracketMatchIdSymmetric | scraper/src/scraper.js:206-208 | the bracket match id does not depend on player order |
| Scraper.BoardStation | scraper/src/scraper.js:216 | empty board text gives no station; a station is the non-zero `parseInt` of the text; otherwise the text does not parse or parses to 0 |
| Scraper.BracketRow | scraper/src/scraper.js:195 | an entry is dropped iff one of its names is empty |
| Scraper.BracketMatches | scraper/src/scraper.js:194-220 | no more matches than entries, and every entry with both names yields its match |
| Scraper.BracketMatchesFromCompleteEntries | scraper/src/scraper.js:194-220 | every emitted match comes from an entry with both names, carrying its names, scores and id; none is a walkover |
| Scraper.CompleteEntriesKept | scraper/src/scraper.js:194-220 | every entry with both names is emitted |
| Scraper.WinLossFallback | scraper/src/scraper.js:318-321 | the fallback text `0 - 0` reads as zero wins and zero losses |
| Scraper.RankOf | scraper/src/scraper.js:313-314 | the rank is never 0, and without a rank cell it is the row position |
| Scraper.RowPlayer | scraper/src/scraper.js:298-342 | a row yields a player iff its trimmed name is non-empty, at position row index + 1 |
| Scraper.RosterPositions | scraper/src/scraper.js:330-342 | roster positions strictly increase and lie in `1..rows` |
| Scraper.RosterOfNamedRows | scraper/src/scraper.js:298-343 | when every row is named, the roster has one player per row, the k-th at position k + 1 |
| Scraper.MatchOrder | scraper/src/scraper.js:386-387 | a match order, when present, is never 0 (`parseInt(...) \|\| null`) |
| Scraper.CellStatus | scraper/src/scraper.js:389-396 | finished iff the cell has `fix_game`; active iff not that and the background test holds; never walkover |
| Scraper.CellMatch | scraper/src/scraper.js:353-415 | a match is emitted exactly for a cell not marked `rr_none`, strictly above the diagonal, whose row and column fall inside the roster; it names the roster entries at its recorded positions less one, records the cell's row and column plus one, and takes its status and order from the cell's classes and index text |
| Scraper.CellMatchWellPlaced | scraper/src/scraper.js:398-415 | an emitted cell match names the roster entries at the row's and the column's indices, the column strictly above the row |
| Scraper.CellMatchEmitted | scraper/src/scraper.js:353-415 | every cell above the diagonal whose indices fall inside the roster is emitted, with the roster entries at those indices and positions index + 1 |
| Scraper.RowMatchesWellPlaced | scraper/src/scraper.js:353-416 | every match a row emits is well placed and belongs to that row |
| Scraper.MatrixWellPlaced | scraper/src/scraper.js:350-417 | every match of the matrix is well placed |
| Scraper.RowCompletedBound | scraper/src/scraper.js:355 | a row counts at most as many completed matches as it has cells right of the diagonal |
| Scraper.PairingsDouble | scraper/src/scraper.js:420 | twice the number of pairings of n players is `n·(n−1)` |
| Scraper.TotalMatches | scraper/src/scraper.js:420 | `n·(n−1)/2` is the number of pairings of n players |
| Scraper.CompletedBound | scraper/src/scraper.js:389-393 | in a square matrix, the completed count up to row r plus the pairings among the remaining rows never exceeds the total pairings |
| Scraper.GroupStatus | scraper/src/scraper.js:423-430 | finished iff all matches are completed and there is at least one; active iff not finished and some match is active or one is completed; never walkover |
| Scraper.MemoStationFrom | scraper/src/scraper.js:291-292 | no station exactly when no position from the start matches `(?:tarcza|board)\s*(\d+)` case-insensitively; otherwise the leftmost match gives the number |
| Scraper.MemoStation | scraper/src/scraper.js:289-292 | the memo gives no station exactly when the pattern matches nowhere in it, and otherwise the number of its leftmost match |
| Scraper.MemoStationNeedsKeyword | scraper/src/scraper.js:291-292 | a station is read only from a memo where `tarcza` or `board` is written, in any case |
| Scraper.MemoStationOfBoard | scraper/src/scraper.js:291-292 | the memo `Board n` gives station n |
| Scraper.ReadRoster | scraper/src/scraper.js:298-343 | the player loop pushes, in row order, exactly the players the row step yields; with `RowPlayer` this is the roster |
| Scraper.WalkRow | scraper/src/scraper.js:353-416 | the cell loop of a row emits exactly that row's matches and counts its completed cells |
| Scraper.WalkMatrix | scraper/src/scraper.js:346-417 | the row loop emits the matrix's matches row by row and sums the completed counts |
| Scraper.ScrapeGroup | scraper/src/scraper.js:278-442 | the roster pass, the matrix walk and the counts build exactly the container's group, none without a table |
| Scraper.GroupMatchesWellPlaced | scraper/src/scraper.js:398-415 | every match of a group names the roster entries at the row's and the column's indices, the column strictly above the row |
| Scraper.CompletedAtMostTotal | scraper/src/scraper.js:393 | with named rows and a square matrix, completed matches never exceed `totalMatches`, and there is one player per row |
| Scraper.UnnamedRowOvercounts | scraper/src/scraper.js:389-430 | the named-rows condition is needed: with three rows, the first unnamed, and every cell completed, three completed matches face a total of one, and the group is reported active instead of finished |
| Scraper.UnnamedRowShiftsNames | scraper/src/scraper.js:398-413 | the roster is indexed by raw row indices: with four rows, the first unnamed, the cell in row 1, column 2 is emitted with the players of rows 2 and 3 while it records positions 2 and 3 |
| Scraper.UnnamedRowMisplacesReferee | scraper/src/scraper.js:398-413 | in the same table the cell in row 0, column 2 names row 1's player at position 1; a scheme entry (1, 3) refereed by position 2 then names that same player as the match's referee |
| Scraper.RosterAfterUnnamedFirst | scraper/src/scraper.js:298-343 | with four rows, the first unnamed, the roster holds the players of rows 1, 2 and 3 in that order |
| Scraper.ThreeCompletedRows | scraper/src/scraper.js:389-393 | in three rows of three completed cells, exactly the three cells above the diagonal are counted |
| Scraper.FirstRowUnnamed | scraper/src/scraper.js:298-342 | of three rows whose first has no name, the roster keeps two players |
| Scraper.GroupOf | scraper/src/scraper.js:419-440 | none iff the container has no table; otherwise the group is numbered by its container, holds the roster, counts the pairings of its players as its total, and every match is well placed |
| Scraper.GroupOfCounts | scraper/src/scraper.js:419-440 | a container with a table yields a group whose players are the roster, whose total is the pairings of the roster, and whose completed count is the matrix's |
| Scraper.Groups | scraper/src/scraper.js:433-443 | no more groups than containers, and every group's matches are well placed |
| Scraper.GroupNumbersIncrease | scraper/src/scraper.js:433-443 | group numbers strictly increase and lie in `1..containers` |
| Scraper.GroupNumberOf | scraper/src/scraper.js:433 | the group number is the container index + 1 |
| Scraper.FindSchemeEntry | scraper/src/scraper.js:455-458 | none iff no entry names the pair in either order; otherwise the first entry that does |
| Scraper.FindSchemeEntrySymmetric | scraper/src/scraper.js:455-458 | the lookup does not depend on the order of the two positions |
| Scraper.FindPlayerAt | scraper/src/scraper.js:462 | none iff no player has that position; otherwise a roster player with it |
| Scraper.AssignMatchReferee | scraper/src/scraper.js:454-465 | only the referee fields change; a pairing not in the scheme is untouched; a pairing in it gets a referee position, and a referee name only of a roster player at that position |
| Scraper.AssignGroupReferees | scraper/src/scraper.js:449-466 | only the matches change, each only in its referee fields, and a group whose size has no scheme is untouched |
| Scraper.AssignReferees | scraper/src/scraper.js:449-469 | non-Steel tournaments are untouched; Steel ones get each group's referees assigned |
| Scraper.AssignedReferee | scraper/src/scraper.js:460-465 | a match found in the scheme gets the scheme's referee position and the name of the player there (none when no named player holds it); nothing else changes; the position is the same with the players swapped |
| Scraper.RefereeIsNotAPlayer | scraper/src/scraper.js:460-464 | with a scheme whose referee position differs from both pairing positions, the recorded referee position differs from both playing positions |
| Scraper.NoSchemeNoChange | scraper/src/scraper.js:451-452 | a group whose size has no scheme is unchanged |
| StatsParser.ExtractTournamentId | scraper/src/statsParser.js:15-18 | none iff no `?id=` or `&id=` is followed by a character other than `&`; otherwise exactly the text after the first such marker up to the next `&` (or the end), never empty |
| StatsParser.EmptyIdIsNoId | scraper/src/statsParser.js:16-17 | `t?id=&x=1` carries `?id=` yet yields no id: the capture needs a character other than `&` |
| StatsParser.FirstIdMarker | scraper/src/statsParser.js:16 | the regex match is at the leftmost `[?&]id=` at or after the start |
| StatsParser.GetStatsUrl | scraper/src/statsParser.js:25-31 | fails iff there is no id, with the message naming the URL; otherwise the `t_stats.html?id=` URL for that id |
| StatsParser.ExtractFromQuery | scraper/src/statsParser.js:15-18 | a page address with no `?`/`&` followed by `?id=<id>` yields that id |
| StatsParser.StatsUrlRoundTrip | scraper/src/statsParser.js:25-31 | the statistics URL carries the same tournament id as the URL it was built from |
| StatsParser.ColumnMatchesIsContains | scraper/src/statsParser.js:222 | `h === p \|\| h.includes(p)` is the same as `h.includes(p)` |
| StatsParser.FindIndex | scraper/src/statsParser.js:220-225 | -1 iff no header matches; otherwise the first header that does |
| StatsParser.FirstColumnFrom | scraper/src/statsParser.js:218-229 | -1 iff no header matches any remaining pattern; otherwise a header index |
| StatsParser.FirstColumnPriority | scraper/src/statsParser.js:218-229 | the column found matches the earliest pattern that matches any header, and is the first header that pattern matches |
| StatsParser.FindColumn | scraper/src/statsParser.js:218-229 | the pattern loop returns the column the priority search defines |
| StatsParser.HeaderKeys | scraper/src/statsParser.js:192-215 | one key per caption: the trimmed caption in lower case |
| StatsParser.ColumnMapOf | scraper/src/statsParser.js:232-249 | every column is a header index or -1, and the name column is -1 iff no header matches a name pattern |
| StatsParser.BuildColumnMap | scraper/src/statsParser.js:232-249 | each statistic's column is the search over its own pattern list, and every column is -1 or a header index |
| StatsParser.SampleText | scraper/src/statsParser.js:201 | a sample cell keeps at most 30 characters |
| StatsParser.NameLikeIsHasLetter | scraper/src/statsParser.js:259 | a sample cell looks like a name iff it has an ASCII letter; the digits-only test adds nothing |
| StatsParser.FirstNameLike | scraper/src/statsParser.js:256-264 | -1 iff no sample cell from the start position on looks like a name, otherwise the first one that does |
| StatsParser.FallbackColumn | scraper/src/statsParser.js:254-265 | a found name column is kept; otherwise it is the first sample cell that looks like a name, or -1 when none does |
| StatsParser.NameColumnFallback | scraper/src/statsParser.js:254-265 | the search loop, which stops at the first name-like cell, yields exactly `FallbackColumn` |
| StatsParser.CellValue | scraper/src/statsParser.js:48-51 | none iff the index is outside the row; otherwise the trimmed cell text |
| StatsParser.KeepNumberChars | scraper/src/statsParser.js:56 | only digits and `-` remain, each of them as often as in the input, and a digits-only text is unchanged |
| StatsParser.KeepNumberCharsConcat | scraper/src/statsParser.js:56 | the filter distributes over concatenation, so the kept characters stay in input order |
| StatsParser.KeepNumberCharsOfSeparators | scraper/src/statsParser.js:56 | text without digits and `-` is removed entirely |
| StatsParser.ParseNumber | scraper/src/statsParser.js:53-58 | no value outside the row, or for an empty or `-` cell |
| StatsParser.ParseNumberOfDigits | scraper/src/statsParser.js:53-58 | a cell of digits reads as its decimal value |
| StatsParser.ParseNumberOfSeparated | scraper/src/statsParser.js:53-58 | a separator between two digit groups is dropped before the parse: `12,345` reads as 12345 |
| StatsParser.ParseNumberIgnoresSuffix | scraper/src/statsParser.js:53-58 | a trailing text without digits or `-` is dropped: `15 darts` reads as 15 |
| StatsParser.RowName | scraper/src/statsParser.js:68-74 | the name has no surrounding whitespace and is empty when the name column lies past the row's end |
| StatsParser.NameAccepted | scraper/src/statsParser.js:77 | a name is accepted iff it has at least two characters and no `(` |
| StatsParser.StatsRow | scraper/src/statsParser.js:43-99 | a row is dropped iff it has fewer than 5 cells, its name is rejected, or its first cell looks like a header; a kept row carries its name and, field by field, the number read from the column the map gives that statistic (`scores100Plus` from `scores100`, `scores140Plus` from `scores140`, and so on) |
| StatsParser.ParenthesisedNameRejected | scraper/src/statsParser.js:77 | a name containing `(` drops the row |
| StatsParser.StatsRows | scraper/src/statsParser.js:43-100 | no more rows come out than went in, and every row the row logic accepts is kept |
| StatsParser.StatsRowsNamed | scraper/src/statsParser.js:77-100 | every parsed row has a name of at least two characters without `(` |
| StatsParser.ShortRowsDropped | scraper/src/statsParser.js:46 | a table whose rows all have fewer than 5 cells yields nothing |
| StatsParser.DedupByName | scraper/src/statsParser.js:277-285 | the first row of each player name is kept, in order, and the names are distinct |
| StatsParser.DedupKeepsNames | scraper/src/statsParser.js:100 | de-duplication keeps the two-character name bound |
| StatsParser.ScrapeTournamentStats | scraper/src/statsParser.js:111-290 | fails iff the URL has no id; no table gives `[]`; otherwise the de-duplicated rows read with the mapped columns, the name column being `FallbackColumn` of the mapped one and the first data row's sample texts; names distinct and at least two characters long |
| Database.ScrapedMatchStored | scraper/src/database.js:136-147 | a match as the scraper produces it is stored under its tournament and id with every field as scraped |
| Database.ScoreOrZero | scraper/src/database.js:141-142 | a missing score is stored as 0 and a present one as is |
| Database.RowOf | scraper/src/database.js:136-147 | the row is keyed by the tournament and match id; missing scores become 0 and a missing status becomes pending |
| Database.Batch | scraper/src/database.js:136-147 | one row per input match, in order |
| Database.LastWith | scraper/src/database.js:149-156 | a row of the batch with the key, no later row of the batch having that key; none iff no row has it |
| Database.UpsertedLookup | scraper/src/database.js:149-156 | after an upsert a key is present iff it was before or the batch has it, and holds the batch's last row for it, else the old row |
| Database.LastWithDistinct | scraper/src/database.js:149-156 | in a batch without repeated keys, each row is the one stored for its key |
| Database.UpsertIdempotent | scraper/src/database.js:149-156 | upserting the same batch twice equals upserting it once |
| Database.UpsertTwice | scraper/src/database.js:149-156 | two upserts in a row equal one upsert of the concatenated batches |
| Database.FinishMissing | scraper/src/database.js:285-290 | the same keys; rows of the tournament that are active or pending and not listed become finished; all other rows stay |
| Database.OpenRowsAreListed | scraper/src/database.js:285-290 | afterwards every active or pending row of the tournament is one of the listed ids |
| Database.FinishMissingIdempotent | scraper/src/database.js:280-295 | finishing missing matches twice equals doing it once |
| Database.UpsertThenFinishKeepsBatch | scraper/src/database.js:131-163 | upserting a scraped batch and then finishing the matches missing from it leaves each scraped match stored as scraped |
| Database.MatchStore.UpsertMatches | scraper/src/database.js:131-163 | an empty batch returns `[]`; a store error or a batch repeating a key fails with no change; otherwise the table is the upsert of the batch and the batch is returned |
| Database.MatchStore.MarkMissingMatchesAsFinished | scraper/src/database.js:280-295 | an empty id list changes nothing; a store error is logged and changes nothing; otherwise the table is the bulk finish; with every row stored under its own key, a row whose id is listed is left as it was |
| Utils.KeepFirst | scraper/src/utils.js:119-129 | the kept items are items of the input, no more of them than it has |
| Utils.KeepFirstKeys | scraper/src/utils.js:119-129 | keeping the first item per key keeps every key |
| Utils.KeepFirstDistinct | scraper/src/utils.js:119-129 | the kept items have distinct keys |
| Utils.KeepFirstOrigins | scraper/src/utils.js:119-129 | the kept items are a subsequence of the input, each the first with its key |
| Utils.UniqueBy | scraper/src/utils.js:119-129 | the seen-set loop keeps exactly the first item of each key |
| Utils.Bucket | scraper/src/utils.js:105-111 | a bucket is no longer than the input and holds only items of its key |
| Utils.BucketOfAbsentKey | scraper/src/utils.js:105-111 | a key no item has gets an empty bucket |
| Utils.GroupBy | scraper/src/utils.js:105-111 | a `TypeError` iff some item's key names a member inherited from `Object.prototype` (`constructor`, `toString`, `__proto__`, …); otherwise the result's keys are exactly the items' keys, and each key maps to its items in input order |
| Utils.BucketSizesSum | scraper/src/utils.js:105-111 | the buckets of a complete list of distinct keys hold every item exactly once in total |
| Utils.Retry | scraper/src/utils.js:80-97 | at most `maxRetries` calls, each after a failure; success returns the last call's value; failure means all `maxRetries` calls failed and carries the last error, or none when no call was made |
| Utils.JsRem | scraper/src/utils.js:203-204 | JavaScript `%` on a non-negative operand is the remainder; on a negative one it is in `(-b, 0]` |
| Utils.UptimeOf | scraper/src/utils.js:201-204 | a non-negative uptime gives non-negative parts; a negative one (a clock set back) gives a negative hour count and non-positive minutes and seconds, as `%` and `Math.floor` do |
| Utils.UptimeSplits | scraper/src/utils.js:201-204 | for a non-negative uptime, minutes and seconds are below 60 and the split loses less than a second |
| Utils.ScraperStats.constructor | scraper/src/utils.js:167-178 | starts at the given time with all counters zero and no tournaments |
| Utils.ScraperStats.Reset | scraper/src/utils.js:171-178 | restarts the clock, zeroes the counters and empties the tournaments |
| Utils.ScraperStats.RecordScrape | scraper/src/utils.js:180-198 | one more scrape, counted as success or failure; matches are added only on success; the tournament's tally counts one more scrape and holds the latest match count; other tallies are unchanged; the counters stay consistent |
| Utils.ScraperStats.GetStats | scraper/src/utils.js:200-217 | counters are reported as kept; there is no success rate iff nothing was scraped, and otherwise it is successes over total; active tournaments is the number of tallies |
| Utils.SuccessRateAtMostOne | scraper/src/utils.js:211-213 | the success rate never exceeds 100% |
| Frontend.FormatTime | frontend/lib/utils.ts:25-29 | empty iff no time or an empty one; otherwise the first five characters (all of a shorter time) |
| Frontend.FormatTimeIdempotent | frontend/lib/utils.ts:25-29 | formatting a formatted time changes nothing |
| Frontend.ContainsText | frontend/lib/utils.ts:137-139 | the empty search is found in every text, and a found search is no longer than the text |
| Frontend.ContainsTextIgnoresCase | frontend/lib/utils.ts:137-139 | lower-casing either argument first does not change the answer |
| Frontend.ContainsTextFindsStretch | frontend/lib/utils.ts:137-139 | a search equal, up to case, to some stretch of the text is found |
| Frontend.GroupMatchesByStatus | frontend/lib/utils.ts:48-55 | each list holds only matches of its status |
| Frontend.GroupMatchesCoversAll | frontend/lib/utils.ts:48-55 | the four lists together hold as many matches as the input |
| Frontend.BucketHasItsItems | frontend/lib/utils.ts:48-55 | each match appears in the list of its status |
| Frontend.GroupGroupsByStatus | frontend/lib/utils.ts:156-162 | each list holds only groups of its status |
| Frontend.GroupGroupsCoversAll | frontend/lib/utils.ts:156-162 | the three lists and the groups of no listed status together account for every group |
| Frontend.KeyCompare | frontend/lib/utils.ts:144-151 | the comparison is at most 0 iff the first key sorts first, at least 0 iff the second does |
| Frontend.CompareByStation | frontend/lib/utils.ts:145-150 | a match with a station sorts before one without; two without compare equal; two stations compare as numbers |
| Frontend.CompareByStationIsKeyOrder | frontend/lib/utils.ts:145-150 | the station comparator has the sign of the key order: stations ascending, no station last |
| Frontend.CompareGroups | frontend/lib/utils.ts:168-178 | an active group sorts before an inactive one; otherwise the station comparator decides |
| Frontend.CompareGroupsIsKeyOrder | frontend/lib/utils.ts:168-178 | the group comparator has the sign of the key order: active first, then stations ascending, no station last |
| Frontend.StableSort | frontend/lib/utils.ts:145 | sorting permutes the input |
| Frontend.InsertSorted | frontend/lib/utils.ts:145 | inserting into a sorted list keeps it sorted |
| Frontend.InsertKeepsKeyOrder | frontend/lib/utils.ts:145 | insertion keeps items with equal keys in input order |
| Frontend.StableSortSorted | frontend/lib/utils.ts:145 | the sorted list is ordered by key |
| Frontend.StableSortStable | frontend/lib/utils.ts:145 | items with equal keys keep their input order (`Array.prototype.sort` is stable) |
| Frontend.SortByStation | frontend/lib/utils.ts:144-151 | the result is a permutation of the matches, sorted by station key |
| Frontend.SortByStationOrder | frontend/lib/utils.ts:144-151 | the result permutes the matches, puts matches without a station last and orders stations ascending |
| Frontend.SortGroupsByStation | frontend/lib/utils.ts:167-179 | the result is a permutation of the groups, sorted by activity and then station key |
| Frontend.SortGroupsOrder | frontend/lib/utils.ts:167-179 | the result permutes the groups, puts active groups first, and within each part puts groups without a station last and orders stations ascending |

## Left out

- Browser work (Puppeteer, page navigation, CSS selectors, `page.$$eval`) is not modelled. Each page arrives as records of the texts and attributes the selectors return. A missing element is `None`.
- The statistics table search is not modelled: the selector list and the fallback table guess at `scraper/src/statsParser.js:135-181`. The table arrives as `Option<StatsTable>`, and `None` stands for "no suitable table".
- The computed-style test for an active group cell (`scraper/src/scraper.js:363-371`) is the boolean `RawCell.activeBackground`.
- `REFEREE_SCHEMES` is not part of this model. It is the `schemes` parameter, and `RefereeIsNotAPlayer` takes the schemes' property (the referee is neither player) as a precondition.
- `AssignReferees` builds new group values. The source sets `match.referee` in place on shared objects. Aliasing is not modelled.
- Floating point is left out:
  - match and player averages (`parseFloat`), `avg3Darts` and `avgFirst9` (`parseDecimal`);
  - the success-rate percentage text (`toFixed(1)`) and the uptime text format.
  The rate is reported as the pair of counts.
- Errors thrown by the browser inside `scrapeTournamentStats` make it return `[]` (`scraper/src/statsParser.js:292-296`). They are not modelled, since the browser is not.
- Supabase is not modelled. Its error is the `fault` parameter. The `data` returned by `.select()` is taken to be the upserted rows.
- `Database.MatchStore.UpsertMatches`: a batch that repeats a `(tournament_id, n01_match_id)` key fails. This is PostgreSQL's `ON CONFLICT DO UPDATE` behaviour, which the source reaches through Supabase. It is not written in the source.
- The quoting of ids inside the `.not(..., 'in', ...)` filter is not modelled. An id is taken to compare equal to its quoted form.
- Only the pure core of `scraper/src/utils.js` and `frontend/lib/utils.ts` is modelled. Left out are clocks and sleeping, `log`, date formatting and parsing, `safeJsonParse`, `throttle`/`debounce`, `cn` and `isValidN01Url`.
  - `Retry` makes no delay between calls. `ScraperStats` is given the current time.
- `Utils.GroupBy`: keys are generic, so which of them name an inherited member is passed in as `inherited` (for string keys, membership in `ObjectPrototypeMembers`); the engine's exact `TypeError` message is not modelled and a fixed text stands for it.
- `Utils.GroupBy`: JavaScript turns every key into a property-name string. The model keeps keys as values, so two keys that print the same stay apart.
- `groupBy`/`uniqueBy` with a property name as `key` are modelled only as the projection function.
- `Text.Lower` maps one character to one character. It folds ASCII, Latin-1 and Latin Extended-A, except U+0130 (capital I with dot above), which JavaScript lowercases to the two characters `i` and U+0307; the model leaves it unchanged. Other scripts pass through unchanged.
- `Text.LexLe` compares code points, not UTF-16 code units. The two differ only beyond the Basic Multilingual Plane.
- Strings are sequences of code points, while JavaScript's `length` and `substring` count UTF-16 code units. A character beyond the Basic Multilingual Plane (an emoji, say) counts 1 here and 2 there. This changes the length test of `StatsParser.NameAccepted` (a one-emoji name is kept by the page script and dropped by `StatsParser.StatsRow`) and the cut points of `StatsParser.SampleText` (30), `Parser.ProcessMatchData` (the 5000-character raw HTML) and `Frontend.FormatTime` (5).
- `parseInt` is modelled on unbounded integers. Precision loss past 2^53 is not modelled.
- `undefined` and `null` are both `None`.
- Other parts of `scraper/src/scraper.js` are not modelled:
  - the bracket record's `legsLimit` field, which nothing reads;
  - each player's `id` attribute and averages, which are carried as text or left out;
  - `upsertGroups` and the polling loop in `scraper/src/index.js`.
- `Frontend.StableSort` stands for `Array.prototype.sort`, which the language specifies to be stable. The comparators' `a - b` is taken on integer station numbers.
- The front end's `Group` type is reduced to its status and station number. A status other than active, pending or finished is counted in no list.
- `Scraper.ScrapeGroup` and the walk lemmas: the walk is proved for any cell score reader, and `GroupOf` instantiates it with `CellScore`. Nothing further is proved about `CellScore` itself beyond what `Parser` proves about the same pattern.
- `Scraper.CompletedAtMostTotal` assumes every row of the matrix has at most one cell per player. The source relies on the page for this.
- `Scraper.CompletedAtMostTotal` also assumes every row carries a name. An unnamed row leaves the roster, and so the total, but its completed cells still count; `Scraper.UnnamedRowOvercounts` shows the count exceeding the total.
- `Scraper.WellPlaced`, `Scraper.GroupMatchesWellPlaced` and `Scraper.RefereeIsNotAPlayer` speak of roster indices and positions, not of the rows' own players. The walk looks up the roster, which skips unnamed rows, by raw row and column indices, so a match's names and its referee are the right players only when every earlier row is named. `Scraper.UnnamedRowShiftsNames` and `Scraper.UnnamedRowMisplacesReferee` show the shift.
