# Hockey team statistics scraper: the transform stage, in Dafny

The scraper (`hockey_scrape.py`) fetches 24 pages of the hockey-teams table, turns every
`tr.team` row into a team record, transposes the records into nine columns for the
"Hockey Data" sheet, and computes per year the team with the most wins ("winner") and the team
with the most losses ("loser") for the "Winners and Losers" sheet. This project models that
transform stage and proves what it promises:

- `skipping.dfy`: the try/except skip of the extraction loop as an ordered filter over items that may fail.
- `options.dfy`: `Option`, for a cell text that may not parse and a row that may not become a record.
- `int_text.dfy`: Python's `int(text)` on stripped text (optional sign, ASCII digits, single
  underscores between digits, leading zeros allowed), with decimal printing as its right inverse (parsing the printed form of n gives n back; printing does not restore
  leading zeros, signs such as `+` or underscores).
- `team_data.dfy`: the team record, `process_team_data` (records to nine columns) and the data
  sheet's read-back of the columns row by row, which is its inverse.
- `extraction.dfy`: the coercion of one row into a record (`int(text or 0)` for the five counts,
  `text or '0'` for the differential, a missing cell or an unparsable count drops the row) and the
  nested extraction loop of `main` as a method proved equal to an ordered filter.
- `winners_losers.dfy`: `calculate_winner_loser` as a method with a loop, proved equal to a
  left fold; lemmas that the keys are exactly the input's years in order of first appearance,
  that winner and loser are the first record of the year with the greatest win (resp. loss) count,
  that the two are tracked independently, and what the summary sheet's rows hold.
- `fixtures.dfy`: the fixture of `test_hockey_scrape.py` and its expected outcomes, and a sample
  page pair exercising every extraction path.

A row arrives as a map from the `td` class name to the cell's stripped text; a class name that is
not a key is a missing cell. The per-year dictionary is modelled as a map together with the list of
its keys in insertion order, which is the order in which the summary sheet lists the years. As in
the code, the loser's count sits in the slot called `wins` (hockey_scrape.py:55,60), so
`Standing.wins` of a loser is its Losses count. Counts are unbounded integers and may be negative
(`int("-3")` succeeds), and non-empty count text that `int` rejects drops the row rather than
defaulting to 0: both follow the code at hockey_scrape.py:187-192 rather than a reading of the
record as holding non-negative counts that default to 0.

## Model

| member | source | states |
|---|---|---|
| `TeamData.ProcessTeamData` | hockey_scrape.py:34-47 | nine columns, each of length `|data|`, and reading position i across them gives back record i |
| `TeamData.DataSheetRows` | hockey_scrape.py:92-103 | the data sheet gets one row per entry of the TeamName column |
| `TeamData.DataSheetListsRecords` | hockey_scrape.py:92-103 | the rows written to the data sheet from `process_team_data`'s columns are exactly the records, in order |
| `TeamData.ColumnsRoundTrip` | hockey_scrape.py:34-47 | transposing the rows read back from equal-length columns gives the same columns: the transpose loses nothing either way |
| `IntText.ParseInt` | hockey_scrape.py:187-192 | `int` rejects empty text; accepted text is a leading sign then digits and underscores only; the sign decides the sign of the value |
| `IntText.ParseShowInt` | hockey_scrape.py:187-192 | every integer written in decimal parses back to itself |
| `IntText.ForeignCharacterRejected` | hockey_scrape.py:187-192 | text holding any character other than digits, underscores or a leading sign does not parse |
| `IntText.DigitsValueOfShowNat` | hockey_scrape.py:187-192 | the decimal digits of n are a valid digit run whose value is n |
| `Extraction.ExtractRecordSucceeds` | hockey_scrape.py:183-196 | a row becomes a record iff all nine cells are present and every count cell is empty or holds text `int` accepts |
| `Extraction.ExtractRecordFields` | hockey_scrape.py:184-194 | the record keeps name, year and win percentage verbatim, an empty differential becomes "0", an empty count becomes 0 and any other count is `int`'s value of its text |
| `Extraction.CountOfShowInt` | hockey_scrape.py:187 | `int(text or 0)` of an integer's decimal text is that integer |
| `Extraction.ExtractRowOf` | hockey_scrape.py:184-194 | a row showing a record's fields (counts in decimal) extracts back to that record, an empty differential coming back as "0" |
| `Skipping.Kept` | hockey_scrape.py:182-196 | the try/except loop never yields more values than items |
| `Skipping.KeptAppend` | hockey_scrape.py:180-196 | two stretches of items processed one after the other yield the first's values then the second's |
| `Skipping.KeptSkipsFailure` | hockey_scrape.py:195-196 | a failing item contributes nothing and leaves the values around it as they are |
| `Skipping.KeptIsOrderedFilter` | hockey_scrape.py:182-196 | the k-th value comes from the k-th succeeding item, and succeeding positions increase |
| `Skipping.KeptIndicesExact` | hockey_scrape.py:182-196 | a position is kept iff its item succeeds |
| `Extraction.FlattenLength` | hockey_scrape.py:180-182 | the rows of all pages together number the sum of the pages' row counts |
| `Extraction.FlattenRowAt` | hockey_scrape.py:180-182 | row r of page p is processed at position (rows on pages before p) + r: page order first, then row order |
| `Extraction.SurvivingIsOrderedFilter` | hockey_scrape.py:182-196 | at most one record per row; the k-th record comes from the k-th row that extracts, those rows are taken in increasing position, and a row is among them iff it extracts |
| `Extraction.MissingCellDropsRow` | hockey_scrape.py:185-196 | a row lacking one of the nine cells contributes nothing and the rows around it are unaffected |
| `Extraction.UnparsableCountDropsRow` | hockey_scrape.py:187-196 | a row whose count cell holds non-empty text `int` rejects contributes nothing |
| `Extraction.ExtractPage` | hockey_scrape.py:182-196 | the inner loop over one page's rows yields exactly the records of the rows that extract, in row order |
| `Extraction.ExtractTeamData` | hockey_scrape.py:179-196 | the nested page/row loop yields exactly the surviving records of all rows, page order then row order |
| `WinnersLosers.CalculateWinnerLoser` | hockey_scrape.py:49-61 | the loop that updates the dictionary in place yields the left fold `Aggregate` of the records |
| `WinnersLosers.KeysAreYears` | hockey_scrape.py:51-56 | the dictionary's keys are exactly the input's years, and its key order lists each once |
| `WinnersLosers.YearsInFirstAppearanceOrder` | hockey_scrape.py:54-55 | the keys iterate in the order of each year's first appearance in the input |
| `WinnersLosers.FirstIndex` | hockey_scrape.py:54-55 | the first position of a year in the year column, or the column length when absent |
| `WinnersLosers.FirstIndexSnoc` | hockey_scrape.py:54-55 | a later record does not move a year's first appearance |
| `WinnersLosers.EarliestMaxFirst` | hockey_scrape.py:54-55 | the first record of a year is so far its first greatest record on either count |
| `WinnersLosers.EarliestMaxKept` | hockey_scrape.py:57-60 | a later record of another year, or one that does not strictly beat the maximum, leaves the first greatest record where it was |
| `WinnersLosers.EarliestMaxReplaced` | hockey_scrape.py:57-60 | a later record of the year that strictly beats the maximum becomes the first greatest record |
| `WinnersLosers.ChampionIsEarliestMax` | hockey_scrape.py:55-60 | the winner is the first record of its year with the year's greatest win count and stores that count; the loser likewise for losses, stored under 'wins' |
| `WinnersLosers.EarliestMaxUnique` | hockey_scrape.py:57-60 | the first greatest record of a year is unique, so ties keep the first-seen team |
| `WinnersLosers.SingleRecordYear` | hockey_scrape.py:54-55 | a year with one record has that team as winner with its wins and as loser with its losses |
| `WinnersLosers.DimensionsIndependent` | hockey_scrape.py:57-60 | winners depend only on names, years and wins, losers only on names, years and losses |
| `WinnersLosers.YearSetSnoc` | hockey_scrape.py:52-53 | one more record adds its year to the years seen |
| `WinnersLosers.SummarySheet` | hockey_scrape.py:129-136 | one summary row per dictionary key |
| `WinnersLosers.SummarySheetYears` | hockey_scrape.py:129-136 | the summary sheet has one row per input year, none twice, in order of first appearance |
| `WinnersLosers.SummarySheetRow` | hockey_scrape.py:129-136 | each summary row holds its year's first most-winning team and wins, and first most-losing team and losses |
| `Fixtures.ProcessMockTeamData` | test_hockey_scrape.py:12-20 | the columns of the four-team fixture hold the values the test expects |
| `Fixtures.WinnersLosersOfMockTeamData` | test_hockey_scrape.py:22-28 | 1990: winner Team B, loser Team A; 1991: winner Team C, loser Team D; years in that order |
| `Fixtures.ParseDecimals` | hockey_scrape.py:187-192 | `int` reads "44", "24", "299" and "264" as those numbers |
| `Fixtures.ExtractGoodRow` | hockey_scrape.py:184-194 | a complete row extracts with its counts parsed and an empty OT-losses count as 0 |
| `Fixtures.ExtractBlankRow` | hockey_scrape.py:187-193 | blank counts become 0 and a blank differential becomes "0" |
| `Fixtures.ExtractMissingCellRow` | hockey_scrape.py:192-196 | a row without its goals-against cell is dropped |
| `Fixtures.ExtractBadCountRow` | hockey_scrape.py:188-196 | a row with losses text "n/a" is dropped |
| `Fixtures.KeptFirstAndLast` | hockey_scrape.py:182-196 | of four rows where only the first and last extract, those two records are kept in order |
| `Fixtures.FlattenSamplePages` | hockey_scrape.py:180-182 | two pages' rows are taken page after page |
| `Fixtures.ExtractSamplePages` | hockey_scrape.py:179-196 | over two pages, the good and blank rows survive in order and the other two are dropped |

## Left out

- Fetching the pages (`fetch`, the `aiohttp` session and `asyncio.gather` fan-out, hockey_scrape.py:23-27,168-170): network I/O and concurrency. The model starts from the rows of the pages.
- HTML parsing (`parse_html`, `find_all('tr', class_='team')`, `find('td', class_=...)`, `.text.strip()`): a foreign library. A row is given as the map from class name to stripped cell text; which `td` `find` picks when several share a class is not modelled.
- IntText.ParseInt: does not model CPython's limit on integer-string length (from 3.11, and 3.10.7 on, `int` raises past 4300 digits, so such a row is dropped by the `except` at hockey_scrape.py:195-196); the model parses digit runs of any length and keeps that row. The Python version the scraper runs under is not fixed by the repository.
- IntText.ParseShowInt: holds for Python only below the same 4300-digit limit, past which `str(n)` itself raises.
- Python `int` accepts every Unicode decimal digit and strips surrounding whitespace itself; only ASCII digits are modelled, and the text arrives already stripped.
- Logging of skipped rows and of the run, log truncation and the wall-clock timing (hockey_scrape.py:13,158-165,196,211-213): I/O and time.
- Writing the HTML files, `os.makedirs` and `create_zip_file` (hockey_scrape.py:20-21,63-69,173-176): filesystem I/O.
- `create_excel_file` (hockey_scrape.py:71-154): only the rows it appends are modelled (`DataSheetRows`, `SummarySheet`); headers, fonts, borders, alignment, column widths and the save with its swallowed exception are spreadsheet cosmetics and I/O.
