# Game catalog core, modelled in Dafny

The application is a desktop catalog of Action/RPG computer games: a single
Swing window (`GameCatalogGUI`) holds a list of `Game` records (title, genre,
release year, rating, developer, platform). It shows them in a table, filters
them, computes statistics, and saves and loads them as CSV or TXT files. This
project models the catalog logic under the window, and leaves out the window
itself:

- `games.dfy`: the `Game` record and its `Genre` enum. Also the three ways a
  genre is turned into text and back: the enum name, the `_`→`/` form written
  to files and tables, and the combo-box labels.
- `java_text.dfy` and `numbers.dfy`: the parts of `java.lang.String`,
  `Integer.parseInt`, `Double.parseDouble`, `%d` and `%.1f` that the core
  relies on, stated exactly on the inputs the core meets, under a
  locale-neutral case mapping, a `.` decimal point and a file charset that
  encodes every character written (see "Left out"). Ratings are whole
  tenths (`slider / 10.0` throughout), so `%.1f` and `parseDouble` work on
  integers. This is exact for ratings below 10^14 in magnitude, which covers
  every rating the window itself produces (0.0 to 10.0).
- `filter.dfy` (`filterGames`): the four criteria of the filter form and the
  loop that rebuilds the table. The loop is proved to show exactly the games
  that pass, in catalog order, numbered from 1. The genre criterion is a
  parameter: `AsWritten` is the code's comparison, under which "Action" and
  "Action/RPG" show nothing; `Corrected` reads the entry as a genre (see
  "Findings").
- `stats.dfy` (`updateStatistics`, `getYearOptions`):
  - the per-genre and per-year counting loops, over a `HashMap` and a
    newest-first `TreeMap`;
  - the stable sort by rating and its top three;
  - the oldest and newest game;
  - the year choices of the filter form.
- `csv.dfy`: the CSV writer and the line-by-line CSV reader. The reader splits
  only at commas outside quotes, strips outer quotes and skips lines it cannot
  read.
- `txt.dfy`: the TXT writer and the TXT reader. The reader is a state machine
  over the loop's locals, which are held in a `Reader` value.
- `catalog.dfy`:
  - the catalog store as a class whose `games` field the add, edit, delete and
    load operations update;
  - the save operation, with its file name, optional banner and format choice;
  - the end-to-end save-then-load properties.

Reading and writing files are modelled as lines: a file is a `seq<string>`,
and a file that cannot be opened is `None`. Loading builds `loadedGames`
aside (GameCatalogGUI.java:1319) and assigns it to the catalog only after the
whole file has been read (:1408). A TXT genre line that throws therefore
leaves the catalog as it was, and `Catalog.CatalogStore.Load` states exactly
that.

All source paths below are relative to the repository root.
`src/com/gamecatalog/GameCatalogGUI.java` is the window. `Game.java` lives at
`Catalog komp games/src/com/gamecatalog/Game.java`.

## Model

| member | source | states |
|---|---|---|
| JavaText.Trim | src/com/gamecatalog/GameCatalogGUI.java:1328 | `trim` leaves no blank (code ≤ U+0020) at either end |
| JavaText.TrimBetweenBlanks | src/com/gamecatalog/GameCatalogGUI.java:1368 | `trim` of blanks + trimmed text + blanks is exactly the text |
| JavaText.TrimIn | src/com/gamecatalog/GameCatalogGUI.java:1328 | every character `trim` leaves was in the input |
| JavaText.IndexOf | src/com/gamecatalog/GameCatalogGUI.java:1376 | `indexOf` is -1 exactly when the character is absent, else its first position |
| JavaText.TakeBefore | src/com/gamecatalog/GameCatalogGUI.java:1389 | the first part of `split("/")` is the longest prefix without `/` |
| JavaText.ReplaceRoundTrip | src/com/gamecatalog/GameCatalogGUI.java:1287 | `replace(a, b)` then `replace(b, a)` gives the text back when `b` was absent from it |
| JavaText.LowerIdempotent | src/com/gamecatalog/GameCatalogGUI.java:591 | `toLowerCase` applied twice is `toLowerCase` applied once |
| JavaText.LowerAppend | src/com/gamecatalog/GameCatalogGUI.java:1265 | lower-casing distributes over concatenation |
| Numbers.DigitsValueOfNat | src/com/gamecatalog/GameCatalogGUI.java:1299 | the digits `%d` prints have the printed value |
| Numbers.ParseIntToString | src/com/gamecatalog/GameCatalogGUI.java:1347 | `Integer.parseInt` reads back every `int` that `%d` printed |
| Numbers.ParseIntTrimmedToString | src/com/gamecatalog/GameCatalogGUI.java:1383 | the same after `trim` |
| Numbers.ParseTenthsToString | src/com/gamecatalog/GameCatalogGUI.java:1348 | `parseDouble` reads back every rating `%.1f` printed, in tenths |
| Numbers.ParseDoubleToString | src/com/gamecatalog/GameCatalogGUI.java:1390 | the same with `parseDouble`'s own trimming |
| Numbers.IntToStringChars | src/com/gamecatalog/GameCatalogGUI.java:1276 | a printed number holds only digits and `-`, so it has no comma |
| Numbers.TenthsToStringChars | src/com/gamecatalog/GameCatalogGUI.java:1285 | a printed rating holds only digits, `-` and `.` |
| Games.AllGenresListsEachOnce | src/com/gamecatalog/GameCatalogGUI.java:546 | `Genre.values()` lists every genre exactly once |
| Games.GenreValueOf | src/com/gamecatalog/GameCatalogGUI.java:1343 | `valueOf` succeeds exactly on a constant's name (ACTION, RPG, ACTION_RPG, declared in Game.java) and returns that constant |
| Games.WireName | src/com/gamecatalog/GameCatalogGUI.java:1287 | the written genre is the enum name with `_` turned into `/` |
| Games.GenreFromWireName | src/com/gamecatalog/GameCatalogGUI.java:1343 | every written genre is read back as the same genre |
| Games.GenreOfLabelInverse | src/com/gamecatalog/GameCatalogGUI.java:787-788 | every combo label is read as its own genre |
| Filter.MatchingIndices | src/com/gamecatalog/GameCatalogGUI.java:600-646 | under either genre rule, exactly the positions of the games passing all four criteria, strictly increasing |
| Filter.PassesFilter | src/com/gamecatalog/GameCatalogGUI.java:602-632 | the `matches` flag is the conjunction of text, genre (as written: enum text equals the entry), year and inclusive rating criteria |
| Filter.FilterGames | src/com/gamecatalog/GameCatalogGUI.java:590-647 | with `AsWritten`, the code's filter: the rows show the matching games in catalog order, numbered 1..k; with `Corrected`, the same for the intended genre test |
| Filter.NoCriteriaShowsAll | src/com/gamecatalog/GameCatalogGUI.java:605-632 | blank search, "Все" genre and year, and a bound met by all show every game, in order |
| Filter.GenreLabelSelectsGenre | src/com/gamecatalog/GameCatalogGUI.java:619-620 | the corrected genre criterion keeps exactly the games of the chosen genre |
| Filter.GenreFilterAsWrittenRejects | src/com/gamecatalog/GameCatalogGUI.java:619-620 | as written, "Action" and "Action/RPG" reject every game |
| Filter.AsWrittenShowsNothing | src/com/gamecatalog/GameCatalogGUI.java:619-620 | as written, choosing "Action" or "Action/RPG" leaves the table empty for any catalog |
| Filter.GenreFilterAsWrittenCounterexample | src/com/gamecatalog/GameCatalogGUI.java:212 | an action game is hidden by "Action" as written and shown by the corrected criterion |
| Stats.GenreCountsSum | src/com/gamecatalog/GameCatalogGUI.java:522-525 | the three genre counts add up to the catalog size |
| Stats.CountYearPositive | src/com/gamecatalog/GameCatalogGUI.java:528-529 | a year has a positive count exactly when some game has it |
| Stats.GenreReport | src/com/gamecatalog/GameCatalogGUI.java:546-552 | every genre in declaration order with its count, 0 when absent, summing to the size |
| Stats.Bump | src/com/gamecatalog/GameCatalogGUI.java:528-529 | `put(y, getOrDefault(y, 0) + 1)` keeps keys strictly descending and adds `y` |
| Stats.BumpCounts | src/com/gamecatalog/GameCatalogGUI.java:528-529 | it adds one to year `y`, leaves every other year, and adds one to the total |
| Stats.CountDistributions | src/com/gamecatalog/GameCatalogGUI.java:519-530 | genre counts are exact; year counts are exact, newest first, summing to the size |
| Stats.InsertYear | src/com/gamecatalog/GameCatalogGUI.java:273 | `TreeSet.add` keeps the years strictly descending and adds the year |
| Stats.DescendingYearsMembers | src/com/gamecatalog/GameCatalogGUI.java:271-274 | the collected years are exactly the release years of the catalog |
| Stats.CollectYears | src/com/gamecatalog/GameCatalogGUI.java:271-274 | the loop yields the distinct years, strictly descending |
| Stats.YearOptionValid | src/com/gamecatalog/GameCatalogGUI.java:625 | a year printed as a choice is one the filter's `parseInt` accepts |
| Stats.YearTextsValid | src/com/gamecatalog/GameCatalogGUI.java:277-279 | every entry of the year list is a choice the filter accepts |
| Stats.YearOptions | src/com/gamecatalog/GameCatalogGUI.java:266-282 | "Все" followed by each distinct year once, newest first, each readable by the filter |
| Stats.InsertByRatingPerm | src/com/gamecatalog/GameCatalogGUI.java:534 | an insertion step adds the game and loses none |
| Stats.InsertByRatingSorted | src/com/gamecatalog/GameCatalogGUI.java:534 | an insertion step keeps ratings non-increasing |
| Stats.InsertByRatingStable | src/com/gamecatalog/GameCatalogGUI.java:534 | an insertion step puts the game after those with the same rating |
| Stats.SortByRatingSorted | src/com/gamecatalog/GameCatalogGUI.java:534 | the ranking is best rated first |
| Stats.SortByRatingPerm | src/com/gamecatalog/GameCatalogGUI.java:533-534 | the ranking is a permutation of the catalog |
| Stats.SortByRatingStable | src/com/gamecatalog/GameCatalogGUI.java:534 | games with equal ratings keep their catalog order (`List.sort` is stable) |
| Stats.RankedPrefix | src/com/gamecatalog/GameCatalogGUI.java:562-564 | the games left out of a ranked prefix are exactly the rest of the ranking |
| Stats.TopRated | src/com/gamecatalog/GameCatalogGUI.java:533-567 | `min(3, n)` games, a prefix of the stable ranking, none left out rated higher |
| Stats.Oldest | src/com/gamecatalog/GameCatalogGUI.java:571 | the first game whose year is ≤ every year |
| Stats.Newest | src/com/gamecatalog/GameCatalogGUI.java:572 | the first game whose year is ≥ every year |
| Stats.UpdateStatistics | src/com/gamecatalog/GameCatalogGUI.java:504-585 | nothing for an empty catalog; otherwise size, both distributions, top list, and as oldest and newest the first game in catalog order with the least and the greatest year |
| Stats.FirstOldestNewestUnique | src/com/gamecatalog/GameCatalogGUI.java:571-572 | only one position is the first oldest, and only one the first newest, so the tie-break is determined |
| Csv.Escape | src/com/gamecatalog/GameCatalogGUI.java:1286 | doubling quotes doubles the quote count |
| Csv.EscapeChar | src/com/gamecatalog/GameCatalogGUI.java:1286 | a quote is written as two quotes; any other character as itself |
| Csv.EscapeAppend | src/com/gamecatalog/GameCatalogGUI.java:1286 | escaping distributes over concatenation, so with `EscapeChar` it fixes every output |
| Csv.EscapeWithoutQuotes | src/com/gamecatalog/GameCatalogGUI.java:1290 | a text without quotes is written unchanged |
| Csv.QuoteCountAppend | src/com/gamecatalog/GameCatalogGUI.java:1332 | quote counts add over concatenation |
| Csv.WriteCsv | src/com/gamecatalog/GameCatalogGUI.java:1283-1292 | the header line, then one line per game |
| Csv.SplitOutsideQuotes | src/com/gamecatalog/GameCatalogGUI.java:1332 | `split` with limit -1 always yields at least one part |
| Csv.SplitJoinsBack | src/com/gamecatalog/GameCatalogGUI.java:1332 | joining the parts with commas gives the line back, so no character is lost or added |
| Csv.SplitCutsOutsideQuotes | src/com/gamecatalog/GameCatalogGUI.java:1332 | every separator is followed by an even number of quotes, and no comma inside a part is |
| Csv.SplitPrefix | src/com/gamecatalog/GameCatalogGUI.java:1332 | text without a cut point stays glued to the next part |
| Csv.SplitJoin | src/com/gamecatalog/GameCatalogGUI.java:1332 | splitting a line of whole parts gives the parts back |
| Csv.QuotedEscapeWhole | src/com/gamecatalog/GameCatalogGUI.java:1285-1291 | a quoted, escaped text is never cut at its commas |
| Csv.SplitRow | src/com/gamecatalog/GameCatalogGUI.java:1332 | a written line splits into its six parts, whatever commas its texts hold |
| Csv.UnquoteQuoted | src/com/gamecatalog/GameCatalogGUI.java:1338-1339 | stripping the quotes of a quoted text gives the text |
| Csv.UnquoteParts | src/com/gamecatalog/GameCatalogGUI.java:1336-1341 | the in-place loop leaves the unquoted parts in the array, or reports the throw |
| Csv.ReadLine | src/com/gamecatalog/GameCatalogGUI.java:1328-1357 | the loop body gives the game of the line, or skips it |
| Csv.ReadCsv | src/com/gamecatalog/GameCatalogGUI.java:1326-1358 | the first line is dropped and every other line is read on its own |
| Csv.RecordsAppend | src/com/gamecatalog/GameCatalogGUI.java:1327-1358 | reading two runs of lines is reading each |
| Csv.SkipsBadLine | src/com/gamecatalog/GameCatalogGUI.java:1353-1356 | a bad line is skipped and reading goes on |
| Csv.SplitNoComma | src/com/gamecatalog/GameCatalogGUI.java:1332 | a line without a comma is one part |
| Csv.NoCommaSkipped | src/com/gamecatalog/GameCatalogGUI.java:1333 | a line without a comma is skipped (fewer than six parts) |
| Csv.PlainPart | src/com/gamecatalog/GameCatalogGUI.java:1336-1341 | a trimmed part with no quote and no comma is whole and kept as it is |
| Csv.PlainLineSkipped | src/com/gamecatalog/GameCatalogGUI.java:1347 | a line of plain parts whose year part is not a number is skipped |
| Csv.HeaderSkipped | src/com/gamecatalog/GameCatalogGUI.java:1283 | the header line is skipped wherever it stands |
| Csv.SkippedPrefix | src/com/gamecatalog/GameCatalogGUI.java:1327-1358 | skipped lines before others add nothing |
| Csv.RecordsNone | src/com/gamecatalog/GameCatalogGUI.java:1327-1358 | lines that are each skipped give no games |
| Csv.UnquoteRowParts | src/com/gamecatalog/GameCatalogGUI.java:1336-1341 | the parts of a written line lose exactly their outer quotes |
| Csv.GameOfReadParts | src/com/gamecatalog/GameCatalogGUI.java:1343-1351 | those parts make the game again, texts as escaped |
| Csv.RecordOfRow | src/com/gamecatalog/GameCatalogGUI.java:1285-1351 | a written line is read back as its game, quotes in texts doubled |
| Csv.RecordsOfRows | src/com/gamecatalog/GameCatalogGUI.java:1327-1358 | all written lines are read back, in order |
| Csv.DecodeWritten | src/com/gamecatalog/GameCatalogGUI.java:1283-1358 | a written file whose texts fit on one line is read back: header dropped, every game returned with its quotes doubled |
| Csv.DecodeWrittenQuoteFree | src/com/gamecatalog/GameCatalogGUI.java:1283-1358 | without quotes in the texts, the round trip gives the catalog itself |
| Csv.QuotesComeBackDoubled | src/com/gamecatalog/GameCatalogGUI.java:1338-1339 | a title `"N"` comes back as `""N""` |
| Txt.Body | src/com/gamecatalog/GameCatalogGUI.java:1295-1304 | seven lines per game |
| Txt.BodySnoc | src/com/gamecatalog/GameCatalogGUI.java:1295-1304 | each further game appends its own numbered block |
| Txt.WriteTxt | src/com/gamecatalog/GameCatalogGUI.java:1295-1304 | the loop writes the blocks of all games, numbered from 1 |
| Txt.DigitRun | src/com/gamecatalog/GameCatalogGUI.java:1370 | the run of digits that starts a line |
| Txt.ReadTxtLine | src/com/gamecatalog/GameCatalogGUI.java:1368-1398 | one iteration of the reading loop is `Step` |
| Txt.ReadTxt | src/com/gamecatalog/GameCatalogGUI.java:1361-1404 | the loop and the final flush give `Decode` |
| Txt.RunAppend | src/com/gamecatalog/GameCatalogGUI.java:1367-1399 | reading two runs of lines continues from where the first stopped, and stops once a line throws |
| Txt.BadGenreAborts | src/com/gamecatalog/GameCatalogGUI.java:1379-1380 | a genre line naming no genre aborts the whole load |
| Txt.IdleIgnores | src/com/gamecatalog/GameCatalogGUI.java:1378-1398 | field lines before the first record start are ignored |
| Txt.StartCarriesOver | src/com/gamecatalog/GameCatalogGUI.java:1370-1377 | a record start flushes a titled record and replaces only the title |
| Txt.YearFallback | src/com/gamecatalog/GameCatalogGUI.java:1381-1386 | an unreadable year gives 2020 |
| Txt.RatingFallback | src/com/gamecatalog/GameCatalogGUI.java:1387-1393 | an unreadable rating gives 5.0 |
| Txt.TitleLineStarts | src/com/gamecatalog/GameCatalogGUI.java:1370-1376 | a written title line starts a record titled with the game's title |
| Txt.NotDigitNotStart | src/com/gamecatalog/GameCatalogGUI.java:1370 | a line not starting with a digit never starts a record |
| Txt.GenreLineStep | src/com/gamecatalog/GameCatalogGUI.java:1378-1380 | a written genre line sets the genre |
| Txt.YearLineStep | src/com/gamecatalog/GameCatalogGUI.java:1381-1383 | a written year line sets the year |
| Txt.RatingText | src/com/gamecatalog/GameCatalogGUI.java:1389 | the text before `/` in a written rating is the number |
| Txt.RatingLineStep | src/com/gamecatalog/GameCatalogGUI.java:1387-1390 | a written rating line sets the rating |
| Txt.DeveloperLineStep | src/com/gamecatalog/GameCatalogGUI.java:1394-1395 | a written developer line sets the developer |
| Txt.PlatformLineStep | src/com/gamecatalog/GameCatalogGUI.java:1396-1397 | a written platform line sets the platform |
| Txt.EmptyLineStep | src/com/gamecatalog/GameCatalogGUI.java:1303 | the empty line after a block is ignored |
| Txt.RunBlock | src/com/gamecatalog/GameCatalogGUI.java:1296-1303 | reading a block flushes the record before and reads the block's game |
| Txt.FlushedReading | src/com/gamecatalog/GameCatalogGUI.java:1401-1404 | flushing the last record gives every game read |
| Txt.RunBody | src/com/gamecatalog/GameCatalogGUI.java:1367-1399 | the loop over all written blocks ends reading the last game |
| Txt.DecodeBody | src/com/gamecatalog/GameCatalogGUI.java:1295-1404 | a written TXT file is read back as the catalog itself |
| Catalog.FormGame | src/com/gamecatalog/GameCatalogGUI.java:790-797 | the dialog's game has its title, developer and platform trimmed |
| Catalog.Removed | src/com/gamecatalog/GameCatalogGUI.java:1078 | one game fewer; those before stay put and those after shift down by one |
| Catalog.RemovedMultiset | src/com/gamecatalog/GameCatalogGUI.java:1078 | removing takes out exactly one occurrence of that game |
| Catalog.RemoveAdded | src/com/gamecatalog/GameCatalogGUI.java:799 | removing the game just appended gives the catalog back |
| Catalog.FormGameEditable | src/com/gamecatalog/GameCatalogGUI.java:703-714 | every game the add or edit dialog makes can be opened by the edit dialog again |
| Catalog.ExtensionOf | src/com/gamecatalog/GameCatalogGUI.java:1265 | the extensions are `.csv` and `.txt`, already lower case |
| Catalog.SaveFileNameEnds | src/com/gamecatalog/GameCatalogGUI.java:1265-1267 | the name saved to ends with the format's extension, in any case |
| Catalog.SaveFileNameIdempotent | src/com/gamecatalog/GameCatalogGUI.java:1265-1267 | saving under the name saved to adds no second extension |
| Catalog.SavedFormatRecognised | src/com/gamecatalog/GameCatalogGUI.java:1322 | a saved file is loaded as CSV exactly when it was saved as CSV |
| Catalog.BannerHasNoComma | src/com/gamecatalog/GameCatalogGUI.java:1271-1279 | no banner line has a comma when the date has none |
| Catalog.BannerAndHeaderSkipped | src/com/gamecatalog/GameCatalogGUI.java:1326-1357 | after the first line, the CSV reader skips the rest of the banner and the header |
| Catalog.NotStartLine | src/com/gamecatalog/GameCatalogGUI.java:1370 | an empty line, or one starting with neither a blank nor a digit, never starts a record |
| Catalog.BannerIgnoredByTxt | src/com/gamecatalog/GameCatalogGUI.java:1271-1279 | the TXT reader passes over the banner unchanged |
| Catalog.CsvSaveLoad | src/com/gamecatalog/GameCatalogGUI.java:1263-1358 | a saved CSV file, banner or not, loads every game with quotes doubled |
| Catalog.TxtSaveLoad | src/com/gamecatalog/GameCatalogGUI.java:1263-1404 | a saved TXT file, banner or not, loads the catalog itself |
| Catalog.SaveThenLoad | src/com/gamecatalog/GameCatalogGUI.java:1263-1408 | saving under any name then loading that file gives back the catalog (CSV: quotes doubled) |
| Catalog.CatalogStore.constructor | src/com/gamecatalog/GameCatalogGUI.java:57-83 | the window starts with the twenty sample games, in order |
| Catalog.CatalogStore.Add | src/com/gamecatalog/GameCatalogGUI.java:780-799 | appends exactly the dialog's game when the title is not blank and the label names a genre; otherwise no change |
| Catalog.CatalogStore.Edit | src/com/gamecatalog/GameCatalogGUI.java:840-994 | with a selected row holding a game whose year and rating fit the spinner and slider (:902, :913) and the same checks as adding, overwrites that game's fields and nothing else; otherwise no change |
| Catalog.CatalogStore.Remove | src/com/gamecatalog/GameCatalogGUI.java:1077-1078 | with a selected row, removes exactly that game |
| Catalog.CatalogStore.Load | src/com/gamecatalog/GameCatalogGUI.java:1318-1408 | replaces the catalog with the games read only when the whole file was read; otherwise no change |
| Catalog.CatalogStore.Save | src/com/gamecatalog/GameCatalogGUI.java:1263-1305 | the name saved to, and the banner (if asked) followed by the CSV or TXT lines |

## Left out

- The Swing window is not modelled: tables, dialogs, option panes, fonts, colours, hover effects and `main`. The store methods stand for the listeners' confirmed paths. Cancelling a dialog is not calling the method.
- Selected-row indexing is not modelled. The edit and delete dialogs take `gamesTable.getSelectedRow()` and use it to index `games` (GameCatalogGUI.java:849, :1078). While a filter is active, the table row is not the catalog position. The model takes the row as a catalog position, and its caller guarantees `-1 <= row < |games|`.
- `Game.id`, a random UUID, is never read by the catalog code, so the record has no id field.
- The average rating, the genre percentages and the bar lengths are not modelled: they are floating point. `%.2f` is not modelled either.
- The statistics text is not modelled. `Stats.UpdateStatistics` returns the numbers the text is made from.
- `%.1f` is modelled with `.` as the decimal point. The source formats in the default locale. In a comma-decimal locale, `%.1f` writes a comma: that adds a part to the CSV line and breaks the TXT rating parse. The model does not cover such locales.
- Files are assumed to use a charset that encodes every character written, such as UTF-8 (the JVM default from Java 18). `FileWriter` and `FileReader` (GameCatalogGUI.java:1269, :1320) use the platform's default charset, and on Java 11 to 17 that may not be UTF-8. Under cp1252, the Cyrillic field keys ("Жанр:", :1378-1397) are written as `?`. The TXT reader then recognises no field line, and every game comes back with the initial values of :1361-1364. Under cp1251, a character such as "ö" in a title comes back as `?`. `Csv.DecodeWritten`, `Txt.DecodeBody`, `Catalog.CsvSaveLoad`, `Catalog.TxtSaveLoad` and `Catalog.SaveThenLoad` hold only under such a charset.
- Case mapping is assumed to be locale-neutral, with no Turkish or Azeri dotted-I rules. `toUpperCase` (:787-788, :986-987, :1343, :1379) and `toLowerCase` (:591, :1265, :1322) use the default locale. In a Turkish locale, "Action" upper-cases to "ACTİON" and `valueOf` throws, so the dialogs could store no Action or Action/RPG game. There, the search "SKYRIM" lower-cases to "skyrım". `Games.GenreOfLabel`, `Games.GenreOfLabelInverse`, `Catalog.CatalogStore.Add`, `Catalog.CatalogStore.Edit` and the filter's text test hold only under locale-neutral case mapping.
- `Numbers.ParseTenths`: accepts only an optional sign, digits and at most one decimal digit. `Double.parseDouble` accepts more: exponents, more decimals, `NaN`, hexadecimal. The model covers the forms the writer produces, and treats everything else as unreadable.
- `JavaText.Lower` and `JavaText.Upper` only fold ASCII and the basic Russian alphabet. They do not cover full Unicode case mapping.
- `Numbers.ParseInt` and the `\d` of the record-start regular expression only accept ASCII digits.
- Opening, writing and closing files are not modelled; a file is its sequence of lines. A file that cannot be opened is `None`. A write error in `saveToFile` is not modelled. The reader that is never closed when loading throws is not modelled.
- The save dialog's own checks are not modelled: the empty file name (GameCatalogGUI.java:1182) and the format chosen from the combo text (:1188). `Catalog.CatalogStore.Save` takes the trimmed name and the format.
- The banner's date comes from the clock (`new Date()`), so it is a parameter. `Catalog.CsvSaveLoad` and `Catalog.SaveThenLoad` need the date to contain no comma. `Date.toString` never writes one.
- The load dialog's confirmation and its file filter are not modelled.
- The ranking is modelled as a stable insertion sort over a value. `List.sort` works in place on the copy at GameCatalogGUI.java:533, and Java's sort algorithm (TimSort) is not modelled. The two sorts have the same result because both are stable.
- `Catalog.CatalogStore.Edit` replaces the game value in the list. The source mutates the `Game` object that the dialog fetched. No other reference to that object is kept, so the outcome is the same, but aliasing is not modelled.
- `Catalog.CatalogStore.Edit` leaves the catalog unchanged for a loaded game whose year is outside 1970–2030 or whose rating is outside 0.0–10.0. There, building the spinner (GameCatalogGUI.java:902) or the slider (:913) throws before the dialog opens. The exception itself is not modelled. `Catalog.CatalogStore.Add` and `Catalog.CatalogStore.Edit` require the values the user enters to lie in the spinner's and slider's ranges (:703, :714, :902, :913). `Catalog.Editable` reads the slider's `(int)(rating * 10)` as the rating in tenths. The two agree for every rating up to 20000.0 in magnitude, and any larger rating is outside the range either way.
- The TXT reader's locals are modelled as one `Reader` value that the loop replaces at each line. They are not separate mutable variables.
- `Txt.DecodeBody`, `Catalog.TxtSaveLoad` and `Catalog.SaveThenLoad` (TXT) assume each game is "TXT-safe":
  - the title is not empty, is trimmed, and holds no line terminator;
  - developer and platform are trimmed and hold no `\n` or `\r`.

  The add and edit dialogs trim every text and refuse a blank title. A title with a line break cannot be written as one TXT line.
- A file is modelled as the list of lines `readLine` returns, so a written text holding `\n` or `\r` is not split into two lines by the model. The CSV and TXT round trips (`Csv.DecodeWritten`, `Csv.DecodeWrittenQuoteFree`, `Catalog.CsvSaveLoad`, `Catalog.TxtSaveLoad`, `Catalog.SaveThenLoad`) therefore require every title, developer and platform to be `JavaText.OneLine`. The texts come from single-line `JTextField`s (GameCatalogGUI.java:675, :739, :754), which drop line breaks on input, and a loaded text is one line `readLine` returned. So every game the window holds meets this.
- The CSV reader's report of a skipped line on `System.err` (GameCatalogGUI.java:1355) is not modelled; `Csv.ReadLine` returns `None` and the line is skipped.
- `Numbers.ParseTenths` keeps every tenth exactly. `Double.parseDouble` (GameCatalogGUI.java:1348, :1390) rounds to the nearest double. From about 10^14 in magnitude (roughly 16 significant digits), distinct tenths can round to the same double. For example, "12345678901234567.8" and "12345678901234567.9" are one double in Java, so Java ranks them as equal and `%.1f` writes both as "12345678901234568.0". The model ranks and writes them apart. Only a hand-edited file can hold such a rating.
- `Numbers.ParseTenths`: a rating read as `-0.0` or `-0` (GameCatalogGUI.java:1348, :1390) becomes 0 tenths. Java keeps `-0.0`: `Double.compare` at :534 ranks it below `0.0`, and `%.1f` prints it as `-0.0`. The model does not tell the two zeros apart. The rating slider cannot produce a negative rating, so only a hand-edited file can hold one.
- The sample catalog's round trip is not proved for the sample games themselves: that would mean checking literal strings character by character.

## Findings

| source | as written | input that shows it | evidently intended | confidence | as-written member | corrected member |
|---|---|---|---|---|---|---|
| src/com/gamecatalog/GameCatalogGUI.java:619-620 | compares the genre combo entry with `toString().replace("_", "/")`, which is upper case, so "Action" and "Action/RPG" (:212) never match | the "Action" entry with the sample game "Sekiro: Shadows Die Twice" (genre ACTION): the game is hidden | read the entry as a genre, the way the add and edit dialogs do (:787-788), and keep exactly the games of that genre | high, not executed | Filter.GenreFilterAsWrittenCounterexample | Filter.GenreLabelSelectsGenre |
