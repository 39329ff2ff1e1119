# A verified model of the review pipeline

The pipeline runs in three stages. The model covers the decisions each stage makes; all I/O happens in the parts left out.

1. **Scraper** (`SAPP_Scraper.py`) fetches new reviews. It chooses a cutoff: the start of a configured date range, else the stored watermark in `last_scraped.txt`, else "now" minus `time_to_scrape` hours. It pages newest first through the review store and keeps the reviews strictly newer than the cutoff, stopping at the first one that is not. Only when something was kept does it write a raw CSV file into the day's folder and save a new watermark.
2. **Enrichment** (`SAPP_SentimentAnalysis.py`) labels the day's raw files. It lists the raw files of today's folder. For every file with a `content` column and at least one row, it adds two columns:
   - a sentiment label, which is the highest-scoring non-neutral label of the classifier, capitalised;
   - a topic list, filtered to a fixed set of categories.

   It then writes the table over the day's single processed file.
3. **Publisher** (`SAPP_GoogleSheets.py`) builds the spreadsheet grid. It reads the processed file, fills in missing topics and sentiments, and rewrites review dates day-first. It copies each row's topics into a `Positive` or a `Negative` column according to the row's sentiment. Finally it builds the grid of strings that goes to the spreadsheet.

Modules:

- `Wrappers`: an `Option` type.
- `PyStr`: the Python string operations used, written out.
  - `strip`, `split` and `join`.
  - Substring tests.
  - ASCII case mapping and `capitalize`.
  - POSIX `os.path.join`.
- `Clock`: the three `strftime` layouts. Reading the two file-name layouts back gives the fields that were written.
- `Tables`: a data frame as named columns and rows of cells, where a cell is a text or a missing value. Assigning a column overwrites it in place or appends it. Writing a table to CSV and reading it back turns every text pandas counts as NA into a missing value; a file on disk always holds the table as read back.
- `Scraper`: the first stage.
  - `Fetch`, the fetch as a function over a finite sequence of pages.
  - `FetchNew`, the page loop as a method proved to compute `Fetch`.
  - `ScrapeDisk`, a class holding the folders, the raw files and the watermark file.
  - `Run`, which updates a `ScrapeDisk`.
- `Labels` and `Topics`: the two classifier post-processing functions of the second stage.
- `Enrichment`: the second stage's file loop.
  - `Process` is a function of the disk.
  - `ProcessReviews` is a loop over a `Disk` object, proved to leave the files as `Process` says.
- `Publisher`: the third stage, up to the grid that is uploaded.

The processed-file path is defined once, as `Enrichment.OutputPath`. The publisher reads through the same function, because `SAPP_GoogleSheets.py:16-19` builds the same string from the same parts.

## Model

| member | source | states |
|---|---|---|
| Clock.FormatDate | SAPP_Scraper.py:46 | "%m-%d-%Y" is ten characters: two '-' separators, digits everywhere else |
| Clock.FormatStamp | SAPP_Scraper.py:51 | "%m-%d-%Y_%H-%M-%S" is nineteen characters: the date layout, '_', then digits and '-' separators |
| Clock.FormatDayFirst | SAPP_GoogleSheets.py:35 | "%d/%m/%Y" is ten characters: '/' third and sixth, digits everywhere else |
| Clock.DayFirstRoundTrip | SAPP_GoogleSheets.py:35 | reading a day-first date back (day, then month, then year) gives the month, day and year that were rendered |
| Clock.DayFirstSwapsFolderDate | SAPP_GoogleSheets.py:35 | a day-first date is the folder-date layout of the same day with its first two fields swapped |
| Clock.DateRoundTrip | SAPP_Scraper.py:46 | reading the folder-date layout back gives the month, day and year that were written |
| Clock.StampRoundTrip | SAPP_Scraper.py:51 | reading the run-stamp layout back gives every clock field that was written |
| Clock.StampInjective | SAPP_Scraper.py:51-52 | two clock readings with the same stamp are the same reading, down to the second |
| Clock.DateInjective | SAPP_Scraper.py:46-47 | two days with the same folder name are the same day |
| PyStr.LStrip | SAPP_SentimentAnalysis.py:72 | the result is the input's tail: each of its characters is the input's at the same distance from the end; everything removed is white space; it does not start with white space |
| PyStr.RStrip | SAPP_SentimentAnalysis.py:72 | the result is the input's head: each of its characters is the input's at the same index; everything removed is white space; it does not end with white space |
| PyStr.Strip | SAPP_SentimentAnalysis.py:72 | the stripped reply is no longer than the reply and neither starts nor ends with white space |
| PyStr.StripIsSlice | SAPP_SentimentAnalysis.py:72 | the stripped reply stands at some index of the reply, and everything of the reply before and after it is white space |
| PyStr.StripAt | SAPP_SentimentAnalysis.py:72 | that index is the length of the leading white space |
| PyStr.Find | SAPP_GoogleSheets.py:43 | the separator occurs at the index found and at no earlier index; None exactly when it occurs nowhere |
| PyStr.SplitJoin | SAPP_SentimentAnalysis.py:72-80 | splitting a joined list on its separator gives the list back when no part holds the separator's first character |
| PyStr.LowerStr | SAPP_SentimentAnalysis.py:98 | `lower()` maps each character separately and keeps the length |
| PyStr.Capitalize | SAPP_SentimentAnalysis.py:99 | the first character upper-cased, the rest lower-cased, same length |
| PyStr.CapitalizeLower | SAPP_SentimentAnalysis.py:98-99 | capitalising does not change a label's lower-case form |
| PyStr.PathJoin | SAPP_Scraper.py:47 | a name starting with '/' is returned as it is. Otherwise the folder comes first, then one '/' unless the folder is empty or already ends in '/', then the name. The result always ends with the name |
| PyStr.PathJoinInjective | SAPP_SentimentAnalysis.py:112-120 | in one folder, two names that agree on a leading '/' give the same path exactly when they are the same name |
| Scraper.ChooseCutoff | SAPP_Scraper.py:22-43 | a parsable range start wins; an unparsable range start or end leaves no cutoff; without a range a stored stamp is used; otherwise now minus `hours` hours |
| Scraper.CutoffMatchesRangeTest | SAPP_Scraper.py:22-31 | an unparsable range start (the NameError case of line 97) comes with no cutoff; a parsed start is the cutoff whenever there is one; without a range there is always a cutoff |
| Scraper.NewerSpec | SAPP_Scraper.py:81-89 | the reviews kept from one page are a prefix of it; all of them are fresh; the review after them, if any, is not |
| Scraper.NewerIsPrefix | SAPP_Scraper.py:81-89 | any prefix of fresh reviews that ends the page or meets a stale review is exactly what the inner loop keeps |
| Scraper.ScanPage | SAPP_Scraper.py:78-91 | the inner loop appends the page's fresh prefix, leaves the maximum seeded with the cutoff over that prefix, and leaves `review_date` at the last review inspected |
| Scraper.NextPage | SAPP_Scraper.py:78-98 | one outer round extends the kept reviews by one page and decides on going on, stopping or raising as the loop specification does |
| Scraper.FetchNew | SAPP_Scraper.py:59-101 | the page loop computes `Fetch`: the kept reviews and the last page's watermark, or the crash |
| Scraper.AcceptedAreFresh | SAPP_Scraper.py:85-89 | every review kept from the first n pages passed the cutoff test |
| Scraper.Fetch | SAPP_Scraper.py:59-100 | with a cutoff, every fetched review is strictly newer than it. The fetch crashes only when the range start never parsed |
| Scraper.NextMeansWholePage | SAPP_Scraper.py:97-98 | a page after which the loop goes on was kept whole |
| Scraper.WholePagesBeforeLast | SAPP_Scraper.py:59-98 | every page before the last one processed is non-empty and kept whole |
| Scraper.FetchedIsPrefixOfSource | SAPP_Scraper.py:59-98 | the fetched reviews are an in-order prefix of all pages read one after another |
| Scraper.PageLatestBounds | SAPP_Scraper.py:78-91 | the per-page maximum is at least its seed and every instant folded in, and it is the seed or one of those instants |
| Scraper.WatermarkBounds | SAPP_Scraper.py:78-111 | when something is fetched, a watermark exists. It is at least the cutoff and every review kept from the last page, which ends the fetched list. It is the cutoff or one of those reviews' instants |
| Scraper.WatermarkLagsBehindEarlierPages | SAPP_Scraper.py:78 | because of the per-page reset, a two-page fetch keeping instants 200 and 150 saves 150 |
| Scraper.NothingNewerNothingFetched | SAPP_Scraper.py:81-98 | when no review is newer than the cutoff, the fetch keeps nothing and does not crash |
| Scraper.CrashOnlyWithoutStart | SAPP_Scraper.py:97 | the loop can crash only when the range start failed to parse |
| Scraper.WatermarkNeverDecreases | SAPP_Scraper.py:35-111 | without a range, the watermark a run saves is never below the stored one |
| Scraper.ExampleCutoffInMiddle | SAPP_Scraper.py:81-98 | five reviews one hour apart, cut off at the third: exactly the first two come back, with the first one's instant as watermark |
| Scraper.ExampleRangeStartIsExclusive | SAPP_Scraper.py:25-97 | with an explicit range, a review exactly at the start is not fetched |
| Scraper.RawFileNameInjective | SAPP_Scraper.py:51-52 | runs with different stamps write different raw files |
| Scraper.RawFileIsNotCheckpoint | SAPP_Scraper.py:19-52 | no raw file path is the watermark file's path |
| Scraper.DailyFolderLayout | SAPP_Scraper.py:16-47 | the date folder is "<app>_CSVFiles/" followed by the date, and ends in a digit |
| Scraper.InDailyFolder | SAPP_Scraper.py:47-52 | a file named after the app lands inside the date folder, separated by one '/', unless the app name starts with '/' |
| Scraper.RawFilePathLayout | SAPP_Scraper.py:16-52 | the raw file is "<app>_CSVFiles/<MM-DD-YYYY>/<app>_Reviews_<MM-DD-YYYY_HH-MM-SS>.csv", or just its name when the app name starts with '/' |
| Scraper.Run | SAPP_Scraper.py:17-115 | both folders exist afterwards. The raw file and the watermark are written exactly when the fetch kept a review, with the kept reviews and the fetch's watermark. Otherwise neither file changes |
| Labels.IndexOf | SAPP_SentimentAnalysis.py:96 | the first entry carrying the label, or None when no entry carries it |
| Labels.IndexOfAppend | SAPP_SentimentAnalysis.py:96 | adding an entry moves no existing label and puts a new label last |
| Labels.TallyDistinct | SAPP_SentimentAnalysis.py:96 | the dictionary holds each label once |
| Labels.TallyLabels | SAPP_SentimentAnalysis.py:96 | the dictionary holds exactly the labels of the reply |
| Labels.TallyScores | SAPP_SentimentAnalysis.py:96 | each label carries the score of its last entry in the reply |
| Labels.TallyOrder | SAPP_SentimentAnalysis.py:96-97 | labels stand in the order of their first entry in the reply |
| Labels.RankPermutes | SAPP_SentimentAnalysis.py:97 | the ranking is a permutation of the dictionary's entries |
| Labels.RankDescending | SAPP_SentimentAnalysis.py:97 | the ranking is ordered by score, highest first |
| Labels.RankHead | SAPP_SentimentAnalysis.py:97 | the first ranked entry is the earliest entry with the highest score (the sort is stable) |
| Labels.NonNeutralMembers | SAPP_SentimentAnalysis.py:98 | the filter keeps exactly the entries whose lower-cased label is not "neutral" |
| Labels.NonNeutralRank | SAPP_SentimentAnalysis.py:97-98 | ranking and then dropping neutral labels equals dropping them and then ranking |
| Labels.RankedPick | SAPP_SentimentAnalysis.py:97-99 | the choice is "Positive" when no non-neutral label is left; otherwise it is the capitalised first highest-scored non-neutral label |
| Labels.SentimentChoice | SAPP_SentimentAnalysis.py:88-102 | "Unknown" on an error reply or an exception. Otherwise the capitalised non-neutral label with the highest score, the earliest on ties. "Positive" when there is none |
| Labels.AnalyzeSentiment | SAPP_SentimentAnalysis.py:83-102 | an error reply or an exception gives "Unknown", and the label returned is never "Neutral" |
| Labels.PickNotNeutral | SAPP_SentimentAnalysis.py:98-99 | choosing from a ranking never yields "Neutral": neutral labels are dropped first, and capitalising keeps a label's lower-case form |
| Labels.DuplicateTakesLaterScore | SAPP_SentimentAnalysis.py:96-99 | "joy" scored 9 and then 1 counts with 1, so "anger" scored 5 wins and the label is "Anger"; keeping the first score would have given "Joy" |
| Labels.DuplicateTally | SAPP_SentimentAnalysis.py:96 | the later "joy" overwrites the earlier entry in place |
| Labels.CapitalizeAnger | SAPP_SentimentAnalysis.py:99 | "anger" capitalises to "Anger" |
| Topics.KeepCategories | SAPP_SentimentAnalysis.py:73 | only categories are kept, and every kept entry comes from the list: no entry is added and none is kept more often than it occurs |
| Topics.KeepCategoriesAppend | SAPP_SentimentAnalysis.py:73 | filtering a list is filtering its halves and putting the results side by side, so kept entries stay in the order of the reply |
| Topics.KeepCategoriesOne | SAPP_SentimentAnalysis.py:73 | a single entry is kept exactly when it is a category |
| Topics.KeepCategoriesCounts | SAPP_SentimentAnalysis.py:73 | every category entry is kept as often as it occurs; every other entry is dropped |
| Topics.KeepCategoriesKeepsAll | SAPP_SentimentAnalysis.py:73 | a list made only of categories passes unchanged |
| Topics.KeepCategoriesEmpty | SAPP_SentimentAnalysis.py:73-77 | a list with no category in it filters to nothing |
| Topics.CategoriesShape | SAPP_SentimentAnalysis.py:25-37 | no category is empty, holds a comma, or has white space at either end |
| Topics.GenericIsCategory | SAPP_SentimentAnalysis.py:36 | the default "Generic" is itself a category |
| Topics.JoinedIsStripped | SAPP_SentimentAnalysis.py:72-80 | a joined list of clean entries is left unchanged by `strip` |
| Topics.CategoriesReparse | SAPP_SentimentAnalysis.py:77-80 | a non-empty list of categories joined with ", " splits back into the same list |
| Topics.FilterTopics | SAPP_SentimentAnalysis.py:72-80 | splitting the result gives the reply's categories in order and multiplicity, or exactly ["Generic"] when there were none |
| Topics.TopicsAreCategories | SAPP_SentimentAnalysis.py:72-80 | every topic in the result is a category |
| Topics.FilterTopicsIdempotent | SAPP_SentimentAnalysis.py:72-80 | filtering a result again returns it unchanged |
| Topics.NoCategoryMeansGeneric | SAPP_SentimentAnalysis.py:75-77 | a reply naming no category gives exactly "Generic" |
| Tables.ColIndex | SAPP_SentimentAnalysis.py:123 | the position of a column with that name, or None exactly when no column has it |
| Tables.ColIndexUnique | SAPP_SentimentAnalysis.py:123 | in a well-formed table a column's name finds that column |
| Tables.SetColumn | SAPP_SentimentAnalysis.py:134 | assigning a column keeps the table well formed and the row count. An existing column is overwritten in place and a new one appended. The column reads back as the values given, and every other column is unchanged |
| Tables.SetColumnKeepsOthers | SAPP_SentimentAnalysis.py:134-137 | every other named column survives an assignment unchanged |
| Tables.SetColumnKeepsAll | SAPP_GoogleSheets.py:35 | the same, for all other columns at once |
| Tables.SetColumnHeader | SAPP_SentimentAnalysis.py:134 | assigning a column leaves the header as it was when the name is there already, and appends the name otherwise |
| Tables.SetTwoColumns | SAPP_GoogleSheets.py:50 | two assignments to different names in turn: both columns hold their values, the header gains whichever of the two names it lacked, in that order, and every other column keeps its contents |
| Tables.WithColumn | SAPP_SentimentAnalysis.py:134 | a header after an assignment starts with the old header, contains the name, and holds no other new name |
| Tables.CsvCell | SAPP_SentimentAnalysis.py:121 | a CSV field reads as a missing value exactly when it is one of pandas' default NA texts ("", "NA", "n/a", "None", "NaN", "null" and the rest); otherwise as that text |
| Tables.ReadBack | SAPP_SentimentAnalysis.py:140 | a missing cell is written as an empty field and reads back missing; a text cell reads back as `read_csv` reads its text |
| Tables.ReadBackIdempotent | SAPP_SentimentAnalysis.py:140 | writing and reading a cell a second time changes nothing more |
| Tables.Reread | SAPP_SentimentAnalysis.py:140 | a table written and read back keeps its header and its shape, and every cell is read back on its own |
| Tables.RereadNamed | SAPP_GoogleSheets.py:27 | reading back keeps a table well formed and its columns; each named column is read back cell by cell |
| Enrichment.RawFiles | SAPP_SentimentAnalysis.py:113 | every kept name passes the raw-file test, and the list does not grow |
| Enrichment.RawFilesMembers | SAPP_SentimentAnalysis.py:113 | a name is kept exactly when it is listed and passes the test |
| Enrichment.ScraperFileIsRaw | SAPP_SentimentAnalysis.py:113 | every raw file name the scraper writes passes the test |
| Enrichment.ProcessedFileIsNotRaw | SAPP_SentimentAnalysis.py:112-113 | the processed file never passes the test, so a rerun does not read its own output |
| Enrichment.RawPathIsNotOutput | SAPP_SentimentAnalysis.py:112-121 | reading a raw file of the folder never reads the processed file |
| Enrichment.OutputPathLayout | SAPP_SentimentAnalysis.py:106-112 | the processed file is "<app>_CSVFiles/<MM-DD-YYYY>/<app>_ReviewsProcessed_<MM-DD-YYYY>.csv", next to the day's raw files, or just its name when the app name starts with '/' |
| Enrichment.RawTable | SAPP_Scraper.py:105-106 | the raw file reads back as a well-formed table with one row per review. Its columns are exactly "userName", "score", "at" and "content", in that order, and each review's content is in its row as `read_csv` reads it |
| Enrichment.RawTableCells | SAPP_Scraper.py:105-106 | each row also holds its review's author, printed score and printed instant, as `read_csv` reads them |
| Enrichment.EnrichTable | SAPP_SentimentAnalysis.py:134-137 | no table comes back exactly when the topic classifier raises on some row |
| Enrichment.EnrichTableAdds | SAPP_SentimentAnalysis.py:134-137 | the enriched table has the same rows. Its header is exactly the old one followed by "sentiment" and then "topics", each added only if missing, so no other column appears. Row by row, the sentiment is the label of its content and the topics are the filtered reply. Every other column is unchanged |
| Enrichment.EnrichTableHeader | SAPP_SentimentAnalysis.py:134-137 | the enriched table is well formed, keeps its rows, and its header is the old one with "sentiment" and "topics" added if missing |
| Enrichment.EnrichedIsLabelled | SAPP_SentimentAnalysis.py:134-137 | every sentiment cell is text other than "Neutral", and every topic cell lists only categories |
| Enrichment.EnrichedFileLabelled | SAPP_SentimentAnalysis.py:120-137 | a table that comes out of one raw file is labelled |
| Enrichment.ScraperFileEnriched | SAPP_SentimentAnalysis.py:121-137 | a file the scraper wrote is never skipped; it fails exactly when the topic classifier raises on one of its reviews |
| Enrichment.EnrichFile | SAPP_SentimentAnalysis.py:120-137 | a file that is missing or not a table fails, and so does one where a topic call raises. A table without "content" or without rows is skipped. Otherwise the file's table comes back enriched: the same rows, the two new columns holding each row's label and topics, and nothing else changed |
| Enrichment.ScanAborts | SAPP_SentimentAnalysis.py:119-137 | the loop stops early exactly when some file raises |
| Enrichment.Ran | SAPP_SentimentAnalysis.py:119-137 | the files processed are a prefix of the list and contain no raise; the next file, if any, raised |
| Enrichment.ScanKeepsLast | SAPP_SentimentAnalysis.py:119-140 | what the loop leaves written is the last table among the files processed before any raise |
| Enrichment.LastOfIsLast | SAPP_SentimentAnalysis.py:119-140 | the search finds the last table of the list, and finds none only when there is none |
| Enrichment.StoreOverwrites | SAPP_SentimentAnalysis.py:140 | a later write to the processed file replaces whatever an earlier one put there |
| Enrichment.Process | SAPP_SentimentAnalysis.py:105-140 | the run reports a missing folder iff the folder is absent. It reports no raw files iff there are none. It aborts iff some raw file raises. Nothing is written in the first two cases |
| Enrichment.ProcessWritesLastTable | SAPP_SentimentAnalysis.py:112-140 | the processed file ends up holding the table of the last raw file, in listing order, that yielded one before the first raise |
| Enrichment.ProcessOutputLabelled | SAPP_SentimentAnalysis.py:119-140 | whatever a run writes has a non-neutral label and known categories on every row |
| Enrichment.EnrichFileIgnoresOutput | SAPP_SentimentAnalysis.py:120-140 | writing the processed file never changes what reading another file gives |
| Enrichment.Disk.Write | SAPP_SentimentAnalysis.py:140 | `to_csv` leaves the folders alone and makes the path hold what reading the table back gives; no other file changes |
| Enrichment.EnrichOne | SAPP_SentimentAnalysis.py:120-140 | one turn of the loop sees the files as they were before the loop: it reads, skips or enriches as `EnrichFile` says, and only an enriched table overwrites the processed file |
| Enrichment.EnrichAll | SAPP_SentimentAnalysis.py:119-140 | the loop over the raw files stops at the first raise; the processed file ends up holding the last table the loop wrote, read back |
| Enrichment.ProcessReviews | SAPP_SentimentAnalysis.py:105-140 | the folders are unchanged and the outcome is that of `Process`. The only file written is the processed file, which holds the last table written, as reading it back gives it |
| Publisher.FillNa | SAPP_GoogleSheets.py:30-31 | every missing cell becomes the fill text, every present cell is kept, and the length is unchanged |
| Publisher.RenderAt | SAPP_GoogleSheets.py:35 | a cell whose parse gives a date in years 1000-9999 becomes that date written "%d/%m/%Y"; any other cell becomes NaT; a text result is always dd/mm/yyyy |
| Publisher.RenderAtReadsBack | SAPP_GoogleSheets.py:35 | a rendered date reads back as the day, month and year parsed |
| Publisher.SplitTopics | SAPP_GoogleSheets.py:42-48 | a sentiment mentioning "Positive" gives (topics, ""); otherwise one mentioning "Negative" gives ("", topics); otherwise both sides are empty |
| Publisher.LabelSides | SAPP_GoogleSheets.py:42-48 | "Positive" puts the topics left, "Negative" right, and "Unknown" nowhere |
| Publisher.Filled | SAPP_GoogleSheets.py:30-31 | missing topics become "" and missing sentiments "Unknown"; every other column, the header and the row count are kept |
| Publisher.MissingSentimentNoSides | SAPP_GoogleSheets.py:31-50 | a row whose sentiment is missing puts its topics on neither side |
| Publisher.Dated | SAPP_GoogleSheets.py:34-35 | only the "at" column changes; every date in it is rendered |
| Publisher.Sides | SAPP_GoogleSheets.py:50 | a "Positive" and a "Negative" column hold each row's split. The header is exactly the old one followed by those two, each added only if missing. Every other column is kept and the row count is unchanged |
| Publisher.Grid | SAPP_GoogleSheets.py:57 | the grid is the header followed by one line per row, each as wide as its row |
| Publisher.Position | SAPP_GoogleSheets.py:57 | the header position of a column; -1 exactly when the header lacks it |
| Publisher.GridSidesAgree | SAPP_GoogleSheets.py:50-57 | after the split, every grid line's "Positive" and "Negative" entries are the split of its sentiment and topics |
| Publisher.SidesRows | SAPP_GoogleSheets.py:50 | in the table with sides, each row's side entries are the split of its own label and topics |
| Publisher.GridShowsSides | SAPP_GoogleSheets.py:57 | the grid shows the side columns as the table holds them |
| Publisher.Publish | SAPP_GoogleSheets.py:16-57 | nothing is found iff the processed file is absent. The upload happens iff the file is well formed and has the four columns used. The grid then has one line more than the file has rows. Its header is the file's columns followed by "Positive" and then "Negative", each added only if missing. Every row's topics are split by its sentiment |
| Publisher.UploadedGrid | SAPP_GoogleSheets.py:30-57 | the grid built from a file that reaches the upload has those lines, that header and those sides |
| Publisher.GridDates | SAPP_GoogleSheets.py:34-57 | every "at" entry of the grid is "nan" or a dd/mm/yyyy date |
| Publisher.GridShowsDates | SAPP_GoogleSheets.py:57 | the grid shows the date column as the table holds it |
| Publisher.UploadedDates | SAPP_GoogleSheets.py:34-57 | every date in an uploaded grid is "nan" or a dd/mm/yyyy date |
| Publisher.ColumnCarried | SAPP_GoogleSheets.py:30-50 | one column of the file other than the two side columns reaches the last table with each cell filled or rendered as `UploadedCell` says |
| Publisher.TableCarriesCells | SAPP_GoogleSheets.py:30-50 | the same, for every such column at once |
| Publisher.GridCarriesCells | SAPP_GoogleSheets.py:57 | the grid line after the header numbered i prints row i - 1 of the table, column by column |
| Publisher.UploadedRows | SAPP_GoogleSheets.py:27-57 | in an uploaded grid, line i after the header prints file row i - 1: in every file column other than the two side columns, the printed cell after the fill and the date rendering |
| Publisher.ProcessedFileShape | SAPP_SentimentAnalysis.py:134-140 | a processed table, read back, keeps its rows and its six columns, so the publisher finds the four it looks up |
| Publisher.ProcessedHeader | SAPP_SentimentAnalysis.py:134-137 | the raw header with the two enrichment columns added is "userName", "score", "at", "content", "sentiment", "topics" |
| Publisher.ProcessedHeaderWithSides | SAPP_GoogleSheets.py:50 | adding the two side columns to that header appends "Positive" and then "Negative" |
| Publisher.PipelineUploads | SAPP_GoogleSheets.py:16-57 | the processed file made from a raw file the scraper wrote, as read back, always reaches the upload. The grid has one line per review, and every row's topics are on the side its label names. Its header is exactly "userName", "score", "at", "content", "sentiment", "topics", "Positive", "Negative" |

## Left out

- I/O is not modelled directly. In its place:
  - the review store is a finite sequence of pages, and a page has a continuation token exactly when a later page exists;
  - the two classifier endpoints are functions from a content cell to their reply;
  - the folder listing is a parameter;
  - the CSV text between the stages is modelled as `Tables.Table` values, keyed by path.
- Not modelled at all:
  - the spreadsheet authentication and upload (`SAPP_GoogleSheets.py:59-85`);
  - loading `config.json`;
  - the prompt text;
  - all printing.
- Readings of `datetime.utcnow()` are parameters: `now` as an instant, and the day and stamp as calendar fields. They are taken as independent readings, as in the source.
- `fromisoformat` and `pd.to_datetime` are given as inputs. A date range arrives already parsed, or marked unparsable. The publisher's date parser is a function per cell, so the column-wide format inference of `pd.to_datetime` is not captured.
- `time.sleep(2)` between pages has no effect on the result.
- Instants are integers, so the review store's microseconds are exact. The `isoformat` text written to the watermark file and read back at the next run is taken to round-trip.
- Sentiment scores are integers, because only their order is used.
- `Scraper.ChooseCutoff`: `time_to_scrape` is taken as a whole number of hours; a fractional value from `config.json` is not modelled.
- Case mapping covers ASCII letters only. `lower()` and `capitalize()` on other letters are not modelled.
- Years outside 1000-9999 are excluded from the clock readings. A parsed date outside them is rendered as NaT.
- `Scraper.Run`: does not create the `data` folder (`SAPP_Scraper.py:17`); no later step reads it.
- `Scraper.Run`: the four-column projection of line 105 is built into `Scraper.Review`, so a review is already those four fields.
- Enrichment does not create folders (`SAPP_SentimentAnalysis.py:22-23`).
- pandas' type inference when reading a CSV is not modelled: a cell is a text or missing. Which texts read as missing follows pandas' default NA list; the header row is taken as written.
- A file whose rows do not match its header, or with duplicate column names, counts as one `read_csv` rejects. pandas would instead pad, or rename the duplicates.
- `Enrichment.RawTable`: how scores and instants are printed into the raw file is a parameter.
- `Publisher.Sides`: what pandas does at line 50 for a table with no rows is not modelled. The model appends two empty columns.
