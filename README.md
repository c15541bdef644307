# Yahoo Finance news scraper: record pipeline model

A Dafny model of the record-handling core of `scripts/yahoo_finance_scraper.py`. The script:

1. builds one news item per article (`fetchNewsInfo`) and appends it to the module-level list `allNews`;
2. scores each item's body with a sentiment analyser and labels it (`sentimentsScores`);
3. puts the new rows after the rows already in `News.csv` (`turnToCSV`);
4. cleans the whole (`preProcess`) and writes it back:
   - it drops repeated titles, keeping the first row of each;
   - it sorts by the text of `Date`, from the greatest text down;
   - it drops rows whose date does not parse.

Modules:

- `Records` (records.dfy): the item (`Article`), the four scores (`Scores`, as exact `real`s), the label, and one CSV row (`Row`).
- `Articles` (articles.dfy): the base URL and source name constants, the inputs that the listing page and the article page yield (`Stub`, `Page`), and the construction of an item. The body is accumulated paragraph by paragraph, as in the source.
- `Sentiment` (sentiment.dfy): the ±0.05 label thresholds and the two loops of `sentimentsScores`. The scorer is a parameter `score: string -> Scores`.
- `Dates` (dates.dfy): the order used to sort the `Date` column. The sort runs before the dates are parsed, so pandas compares the raw text as Python strings: code point by code point, with a proper prefix first. The lemmas prove that this is a total order.
- `Cleaning` (cleaning.dfy): first-occurrence dedupe, sort, and the valid-date filter, as functions with lemmas. Whether a date parses is a parameter `valid: string -> bool`.
- `Store` (store.dfy): the script's module-level state as a class `Scraper`:
  - `allNews` holds the collected items;
  - `newsCsv` holds the rows of `News.csv`, or `None` while the file does not exist.

  The module also has methods for `fetchNewsInfo`, the fan-out in `main` and `turnToCSV`, and the lemmas about merging.

Behaviour of the script worth noting:

- **No new items.** A run that collected no item builds `pd.DataFrame([])`, which has no `article` column. `sentimentsScores` then raises `KeyError` at line 124, and `News.csv` is left as it was: `Store.Scraper.TurnToCSV` returns `false` and does not touch the file.
- **Failed fetches.** A failed fetch or parse raises inside a worker. The results of `executor.map` are never read, so the exception goes unseen and that item is simply missing from `allNews`.
- **File writes.** `to_csv` overwrites `News.csv` in place.
- **Sort order.** The sort at line 156 compares the date text as written, before line 159 parses it. Line 186 writes the parsed dates in pandas' own format (`2024-02-20 15:30:00+00:00`), while new rows carry the page's raw `datetime` attribute (`2024-02-20T10:00:00.000Z`). From the second run on, the sort compares these two formats. At position 10, `'T'` comes after `' '`, so a new row from the same day sorts above an old row even when it is older. The written file then has `2024-02-20 10:00:00+00:00` above `2024-02-20 15:30:00+00:00`, so the stored file is not always newest first.

## Model

| member | source | states |
|---|---|---|
| `Articles.NewsRecord` | scripts/yahoo_finance_scraper.py:101-107 | the item for a stub and its page: the page's datetime, the stub's title, the joined body, the source name `Yahoo Finance`, and the base URL followed by the href |
| `Articles.BuildNews` | scripts/yahoo_finance_scraper.py:86-107 | the loop builds exactly `NewsRecord` of the stub and page: the item's link is the base URL followed by the href; its body is the in-order concatenation of the paragraph texts (empty with no paragraphs); source name is `Yahoo Finance`; date and title are the inputs |
| `Articles.Joined` | scripts/yahoo_finance_scraper.py:96-98 | the body text: the paragraph texts concatenated in order with no separator, empty for no paragraphs |
| `Articles.JoinedAppend` | scripts/yahoo_finance_scraper.py:96-98 | concatenating two paragraph lists and then joining is joining each and concatenating |
| `Articles.JoinedAt` | scripts/yahoo_finance_scraper.py:96-98 | paragraph k appears in the body after all earlier paragraphs and before all later ones |
| `Store.Scraper.constructor` | scripts/yahoo_finance_scraper.py:37 | at start `allNews` is empty and `News.csv` is as found on disk (`None` when it does not exist, the case lines 171-174 catch) |
| `Store.Scraper.FetchNewsInfo` | scripts/yahoo_finance_scraper.py:78-111 | a fetched page appends exactly its item to `allNews`; a failed fetch leaves `allNews` unchanged |
| `Store.Fetched` | scripts/yahoo_finance_scraper.py:193-194 | the number of collected items equals the number of successful fetches (so at most one per stub, one per stub when all succeed), and all carry the source name |
| `Store.FetchedItems` | scripts/yahoo_finance_scraper.py:193-194 | every successfully fetched stub's item is collected, and every collected item is the item of some successfully fetched stub |
| `Store.Scraper.CollectAll` | scripts/yahoo_finance_scraper.py:193-194 | after the fan-out `allNews` is the old list followed by the items of the stubs whose fetch succeeded |
| `Sentiment.Classify` | scripts/yahoo_finance_scraper.py:138-147 | `Positive` iff compound ≥ 0.05, `Negative` iff compound ≤ -0.05, `Neutral` iff strictly between; both bounds inclusive |
| `Sentiment.ThresholdExamples` | scripts/yahoo_finance_scraper.py:141-146 | 0.05 is Positive, -0.05 is Negative, 0 is Neutral |
| `Sentiment.AnnotateAll` | scripts/yahoo_finance_scraper.py:123-147 | annotation keeps length and order; row i keeps item i unchanged, carries the scores of item i's body and the label of that compound score |
| `Sentiment.SentimentsScores` | scripts/yahoo_finance_scraper.py:113-148 | the four score loops and the label loop produce exactly the annotated batch |
| `Dates.TextLe` | scripts/yahoo_finance_scraper.py:156 | Python string order on the raw date text: code point by code point, with a proper prefix before any longer text |
| `Dates.TextLeReflexive` | scripts/yahoo_finance_scraper.py:156 | the date-text order is reflexive |
| `Dates.TextLeTotal` | scripts/yahoo_finance_scraper.py:156 | any two date texts are comparable |
| `Dates.TextLeTransitive` | scripts/yahoo_finance_scraper.py:156 | the date-text order is transitive |
| `Dates.TextLeAntisymmetric` | scripts/yahoo_finance_scraper.py:156 | two date texts each sorting no later than the other are equal |
| `Cleaning.FirstIndexOf` | scripts/yahoo_finance_scraper.py:153 | the result is the least position holding the title, or the length when none does |
| `Cleaning.FirstByTitle` | scripts/yahoo_finance_scraper.py:153 | a first row exists iff the title occurs; it is an input row with that title |
| `Cleaning.FirstByTitleAppend` | scripts/yahoo_finance_scraper.py:180 | in a concatenation, the first row of a title comes from the left part whenever the left part has that title |
| `Cleaning.FirstByTitleDistinct` | scripts/yahoo_finance_scraper.py:153 | in rows with distinct titles, every row is the first of its title |
| `Cleaning.DedupeSeen` | scripts/yahoo_finance_scraper.py:153 | keeps a row iff its title is neither in the given set nor on an earlier row, in input order |
| `Cleaning.Dedupe` | scripts/yahoo_finance_scraper.py:153 | `drop_duplicates(subset='article_title', keep='first')`: `DedupeSeen` starting from no seen titles; its properties are `DedupeSpec` |
| `Cleaning.DedupeSeenKeepsFirst` | scripts/yahoo_finance_scraper.py:153 | a row survives dedupe iff its title was not already seen and it is the first row of its title |
| `Cleaning.DedupeSeenDistinct` | scripts/yahoo_finance_scraper.py:153 | dedupe output has pairwise distinct titles, none of them already seen |
| `Cleaning.DedupeSeenSubseq` | scripts/yahoo_finance_scraper.py:153 | dedupe output is a subsequence of its input |
| `Cleaning.DedupeSpec` | scripts/yahoo_finance_scraper.py:153 | `drop_duplicates(keep='first')`: distinct titles, a subsequence of the input, the same set of titles, and each kept row is the first row of its title |
| `Cleaning.InsertByDate` | scripts/yahoo_finance_scraper.py:156 | insertion adds exactly one row and keeps a newest-first list newest first |
| `Cleaning.SortByDate` | scripts/yahoo_finance_scraper.py:156 | the sorted rows are a permutation of the input, and each adjacent pair has the earlier row's date at or after the later row's |
| `Cleaning.InsertByDateDistinct` | scripts/yahoo_finance_scraper.py:156 | inserting a row with a new title keeps titles distinct |
| `Cleaning.SortByDateDistinct` | scripts/yahoo_finance_scraper.py:156 | sorting keeps titles distinct |
| `Cleaning.NewestFirstChain` | scripts/yahoo_finance_scraper.py:156 | in a newest-first list, any earlier row is at or after any later row |
| `Cleaning.NewestFirstAllPairs` | scripts/yahoo_finance_scraper.py:156 | adjacent date order implies order between every pair |
| `Cleaning.KeepValidDates` | scripts/yahoo_finance_scraper.py:159-162 | keeps, in order, exactly the rows whose date text parses |
| `Cleaning.KeepValidDatesSubseq` | scripts/yahoo_finance_scraper.py:158-162 | the date filter keeps rows in their existing order |
| `Cleaning.KeepValidDatesCount` | scripts/yahoo_finance_scraper.py:158-162 | the date filter keeps each row with a valid date as often as it occurs and no row with an invalid date |
| `Cleaning.SubseqPreserves` | scripts/yahoo_finance_scraper.py:158-162 | dropping rows keeps membership, distinct titles and date order |
| `Cleaning.PreProcess` | scripts/yahoo_finance_scraper.py:151-164 | dedupe, then sort by raw date text, then drop invalid dates, in that order; its properties are the `PreProcess` lemmas below |
| `Cleaning.PreProcessCount` | scripts/yahoo_finance_scraper.py:151-164 | apart from order, the cleaned rows are the deduplicated rows with a valid date |
| `Cleaning.PreProcessMembers` | scripts/yahoo_finance_scraper.py:151-164 | a row is in the cleaned data iff it is the first row of its title and its date is valid |
| `Cleaning.PreProcessDataset` | scripts/yahoo_finance_scraper.py:151-164 | cleaned data has distinct titles, is newest first and holds only valid dates |
| `Cleaning.PreProcessSpec` | scripts/yahoo_finance_scraper.py:151-164 | the three facts above together |
| `Cleaning.InvalidFirstDropsTitle` | scripts/yahoo_finance_scraper.py:153-162 | because dedupe runs before the filter, a title whose first row has an invalid date is absent from the result even if a later row of it has a valid date |
| `Store.Merged` | scripts/yahoo_finance_scraper.py:171-180 | the prior rows first, then the new rows, cleaned together; a missing file contributes no rows |
| `Store.PriorTakesPrecedence` | scripts/yahoo_finance_scraper.py:171-183 | a prior row that is the first prior row of its title and has a valid date survives the merge and is the only row of its title; a new row with that title is dropped |
| `Store.KnownTitlesAddNothing` | scripts/yahoo_finance_scraper.py:171-183 | merging a batch whose titles all occur in a cleaned dataset gives a permutation of that dataset: no row added, removed or changed |
| `Store.MergeIdempotent` | scripts/yahoo_finance_scraper.py:171-183 | merging the same batch again into the written dataset gives a permutation of it |
| `Store.Scraper.TurnToCSV` | scripts/yahoo_finance_scraper.py:166-186 | the file is not rewritten iff no item was collected. Otherwise the file becomes the cleaned concatenation of the old rows (none for a missing file) and the annotated batch. Before the dates are rendered, these rows are a dataset: distinct titles, valid dates, and newest first by raw date text |

## Left out

- `openWebPage` and `extractNews` (lines 39-76) are browser automation and are not modelled. The stubs are an input. The loop at line 60 has no normal exit other than the rendered page listing 100 headlines.
- The HTTP request and the HTML lookups (lines 89-95, 102) are not modelled. Their outcome is the parameter `fetch`, which gives each link's paragraph texts and datetime, or `None` when the request or a lookup fails.
- The VADER analyser (lines 115, 125) and its floating-point arithmetic are not modelled. The scorer is the parameter `score` and returns exact reals.
- The thread pool and the unsynchronised `allNews.append` (lines 37, 110, 193-194) are not modelled. `Store.Scraper.CollectAll` appends in stub order, where the source appends in completion order.
- Reading and writing CSV text (lines 172, 186) are not modelled. The file is the field `newsCsv`, and only a missing file is modelled as a read failure. Other read errors are left out.
- The parsing done by `pd.to_datetime` (line 159) is the parameter `valid`. The coerced column holds timestamps, which are written back in pandas' own format; the model keeps each valid date's original text.
- The in-place updates are modelled as values. `sentimentsScores` assigns new columns into the frame it is given, and `drop_duplicates(inplace=True)` changes the frame it is called on. In the model these are a method returning the annotated rows and a function returning the deduplicated rows. Their only caller uses nothing but the results, so no aliasing is lost.
- pandas index labels and the `print` calls are not modelled.
- `Cleaning.SortByDate` is one concrete sort (insertion). Its contract claims only date order and permutation, because pandas' default quicksort leaves the order of equal dates unspecified.
- `Store.MergeIdempotent` states equality of the merged rows up to order, because pandas' default quicksort leaves the order of equal dates unspecified: two runs may order equal dates differently.
- `Store.PriorTakesPrecedence`, `Store.KnownTitlesAddNothing` and `Store.MergeIdempotent`: date validity is modelled per value, independent of the other rows in the column. `pd.to_datetime` at line 159 is given no format, so a pandas that infers one format from the column's first value may turn dates written in another format into NaT. Prior rows (as `to_csv` wrote them) and new rows (the raw `datetime` attribute) differ in format. Whole groups of rows could then be dropped, which these three lemmas do not capture.
- `Store.KnownTitlesAddNothing` states equality of the merged rows with the dataset up to order, because pandas' default quicksort leaves the order of equal dates unspecified.
- `Store.Scraper.TurnToCSV`: the Date text written at line 186 is pandas' rendering of the parsed timestamp, and the model keeps the original text. Its newest-first promise holds only for the date text before rendering, which is what the sort at line 156 compares. From the second run on, old rows carry rendered dates and new rows carry raw `datetime` text. A new row `2024-02-20T10:00:00.000Z` then sorts above an old row `2024-02-20 15:30:00+00:00`, so the stored file can be out of date order. The model does not capture this.
