# Medium article scraper and feature pipeline, in Dafny

A model of the data path of the Medium project. It has four parts:

- **Link discovery** (`url_scraper.py`). Turns the entries of a Medium RSS feed into article links. Merges them into the links CSV file, keeping the first row for each link.
- **Scraping** (`medium_scraper.py`). Reads that file line by line and fetches each URL. Builds one article record per page that answers 200 and appends it as a row to the output CSV. A header row comes first when the file is new.
- **Preprocessing and features** (`medium_analysis/model.py`). Loads the output CSV as a table. Fills and lower-cases the subtitle column, then adds the four numeric feature columns in place. Returns X (the TF-IDF block of the subtitles, then the four feature columns, all names as text) and y (the `success` column).
- **The script version** (`model.py`). Does the same preprocessing and feature derivation as one top-level script.

Modules, one per file:

| module | file | models |
|---|---|---|
| `Wrappers` | wrappers.dfy | `Option` and `Result` |
| `PyText` | pytext.dfy | the Python string builtins the code relies on: `strip`, `lower`, `count`, `split` on one character, `re.search(r'(\d+)')`, `int`/`str` of naturals, text-mode `readlines`, `str` of a list of strings |
| `Extractor` | extractor.dfy | `scrape_medium_article` |
| `Sink` | sink.dfy | `write_to_csv`; a `CsvFile` class whose rows the method updates in place |
| `BatchRunner` | batch.dfy | `scrape_articles_from_file`, as a loop over the URLs |
| `UrlScraper` | url_scraper.dfy | `scrape_medium_rss`, `save_to_csv` (a `LinkFile` class), the `__main__` block |
| `Frames` | frames.dfy | the part of a pandas DataFrame used here: named columns of equal height, and `df[name] = col` on a `Frame` class |
| `Features` | features.dfy | `load_and_preprocess_data`, `create_features` |
| `ModelScript` | script.dfy | `model.py` lines 8-33 |

Every stateful operation is a method on a class: the CSV file, the links file, the data frame. Each method's `ensures` ties the new state to a function of the old state. Lemmas state what the source promises about those functions.

Two behaviours of the code are easy to miss, and the model keeps both:

- `scrape_articles_from_file` does not skip blank lines or the links file's `link` header. Each is stripped and passed to `scrape_medium_article` as a URL. `requests` rejects it (no `http://` or `https://` scheme), so it yields no record. See `BatchRunner.BlankLineIsVisited`, `BatchRunner.HeaderYieldsNothing` and `BatchRunner.LinkFileProducesLinksOnly`.
- The `tags` cell is written as `str(tags)`, for example `['a', 'b']`. An article without tags gets the cell `[]`, which `create_features` counts as one tag, not zero (`Features.TagCountOfWrittenTags`).

## Model

| member | source | states |
|---|---|---|
| PyText.StripInfix | medium_scraper.py:20 | `strip()` returns the infix of the text between an all-whitespace prefix and an all-whitespace suffix |
| PyText.StripEmptyIff | medium_scraper.py:20 | a text strips to "" exactly when it is all whitespace |
| PyText.StripIdempotent | medium_scraper.py:91 | stripping twice gives the same as stripping once |
| PyText.Lower | medium_analysis/model.py:26 | `lower()` keeps the length, maps each character, and leaves no upper-case letter |
| PyText.LowerIdempotent | medium_analysis/model.py:26 | lower-casing twice gives the same as lower-casing once |
| PyText.SplitCount | medium_analysis/model.py:44 | `len(s.split(c))` is the number of separators plus one |
| PyText.JoinSplit | medium_analysis/model.py:44 | joining the pieces of `s.split(c)` with c gives s back |
| PyText.SplitJoin | medium_analysis/model.py:44 | pieces without the separator, joined and split again, come back unchanged |
| PyText.SearchDigits | medium_scraper.py:41 | the `\d+` match starts at the leftmost digit and runs over every digit after it; there is no match exactly when the text has no digit |
| PyText.DigitsValuePositive | medium_scraper.py:43 | `int()` of a digit string is positive exactly when some digit is not '0' |
| PyText.DecimalRoundTrip | medium_scraper.py:77 | `int(str(n)) == n` for every natural n |
| PyText.DecimalInjective | medium_analysis/model.py:57 | distinct positions have distinct column names after `astype(str)`, and only those |
| PyText.UniversalNewlines | medium_scraper.py:87-88 | text-mode reading leaves no '\r' |
| PyText.ReadLinesConcat | medium_scraper.py:88 | `readlines()` loses nothing: the lines put back together give the text |
| PyText.ReadLinesAreLines | medium_scraper.py:88 | each piece `readlines()` yields is one line: not empty, with '\n' at most as its last character |
| PyText.ReadLinesCount | medium_scraper.py:88 | `readlines()` yields one line per '\n', plus one for a last line without '\n' |
| PyText.ReadLinesOfLines | medium_scraper.py:88 | lines that each end in '\n' are read back exactly |
| PyText.ListReprCommas | medium_scraper.py:77 | the text `str(tags)` holds one comma between neighbouring tags plus the tags' own commas |
| Extractor.Get | medium_scraper.py:10 | `requests.get` gives a reply only for a URL with an http(s) scheme that the network answers, and for such a URL it gives that URL's reply |
| Extractor.SchemedUrls | medium_scraper.py:10 | URLs beginning with `http://`, `https://` or `HTTPS://` all have a scheme `requests` accepts |
| Extractor.SchemeIgnoresCase | medium_scraper.py:10 | whether a URL has an accepted scheme does not depend on its letter case |
| Extractor.ReadTimeMinutes | medium_scraper.py:37-43 | the duration is 0 when there is no read-time span and when its text holds no digit |
| Extractor.ReadTimeOfFirstRun | medium_scraper.py:41-43 | for a text made of a digit-free prefix, a digit run, then a non-digit or the end, the duration is the value of that run: the first run wins and later digits are ignored |
| Extractor.Extract | medium_scraper.py:19-57 | each field of the record for a page: title and subtitle are the stripped first h1/h2 text, or None; tags are the stripped tag-div texts in order; title_character, image_count and duration; success is 1 exactly when title and subtitle are non-empty and duration > 0 |
| Extractor.ScrapeMediumArticle | medium_scraper.py:7-61 | a record exactly when the request gets a reply with status 200, and then the record extracted from that page |
| Extractor.NonOkStatusGivesNoRecord | medium_scraper.py:11-13 | a reply whose status is not 200 gives None, whatever the page |
| Extractor.NoSchemeGivesNoRecord | medium_scraper.py:59-61 | a URL that `requests` refuses (no http or https scheme) gives None |
| Extractor.HeaderAndBlankAreNotUrls | medium_scraper.py:91-96 | neither the header word `link` nor the empty line is an http(s) URL |
| Extractor.ReadTimePositiveIff | medium_scraper.py:37-43 | duration > 0 exactly when the read-time span exists and its first run of digits is not all zeros |
| Extractor.SuccessIff | medium_scraper.py:46 | success is 1 exactly when both headings hold non-whitespace text and the read time's first digit run is not all zeros |
| Extractor.ReadTimeOfDecimal | medium_scraper.py:41-43 | a read time written as `str(n)` followed by a non-digit reads back as n |
| Extractor.ExtractCleanPage | tests/test_scraper.py:30-59 | a page like the test's (unpadded headings and tags, "<n> min read") gives its headings, its tags, the title's length, its image count, n as duration, and success exactly when n > 0 |
| Sink.RecordRow | medium_scraper.py:71-77 | the row `writerow` writes holds title, subtitle, tags, title_character, image_count, duration, success, in that order; None is written as "", the tags as `str(tags)`, numbers in decimal |
| Sink.RecordRowReadsBack | medium_scraper.py:77 | the four numeric cells are digit strings that read back as the record's numbers; the title cell is empty exactly for a falsy title |
| Sink.RecordRowIsNotHeader | medium_scraper.py:74-77 | no data row equals the header row |
| Sink.WriteToCsv | medium_scraper.py:65-81 | a new file gets the header and the row; an existing file gets the row after its rows; a file that cannot be opened is unchanged |
| Sink.WriteAllExisting | medium_scraper.py:68-77 | writing records to an existing file appends one row per record and keeps the earlier rows |
| Sink.WriteAllFresh | medium_scraper.py:68-77 | writing records to a new file gives the header once, then one row per record |
| Sink.WriteAllUnwritable | medium_scraper.py:80-81 | a file that cannot be opened never changes |
| Sink.HeaderWrittenOnce | medium_scraper.py:74-75 | in a file the sink created, row 0 is the header and no other row is |
| BatchRunner.OutcomeAt | medium_scraper.py:94-96 | the outcome at each position is what scraping the URL at that position returns |
| BatchRunner.ScrapeArticlesFromFile | medium_scraper.py:85-105 | the output file ends as if every record scraped from the input's URLs had been written in URL order |
| BatchRunner.ScrapeEach | medium_scraper.py:94-101 | the loop writes exactly the records of the URLs that yield one, in order |
| BatchRunner.RecordsConcat | medium_scraper.py:98-101 | the records of two outcome lists in sequence are each list's records, in sequence |
| BatchRunner.RecordsAllSome | medium_scraper.py:98-99 | when every outcome is a record, they are written one for one |
| BatchRunner.OutcomesConcat | medium_scraper.py:94-96 | the outcomes of two URL lists in sequence are each list's outcomes, in sequence |
| BatchRunner.ProducedConcat | medium_scraper.py:94-101 | the records written for two URL lists in sequence are each list's records, in sequence |
| BatchRunner.ProducedAllSucceed | medium_scraper.py:94-99 | when every URL yields a record, one record per URL is written, in URL order |
| BatchRunner.FailedUrlContributesNothing | medium_scraper.py:98-101 | a URL that yields no record adds no row, wherever it stands |
| BatchRunner.RunOnNewFile | medium_scraper.py:85-105 | on a new output file: no file when nothing is scraped, else the header then one row per record |
| BatchRunner.MissingInputLeavesOutput | medium_scraper.py:102-105 | an input file that cannot be read leaves the output unchanged |
| BatchRunner.BlankLineIsVisited | medium_scraper.py:88-91 | a whitespace-only line is not skipped: it is visited as the empty URL |
| BatchRunner.BlankUrlYieldsNothing | medium_scraper.py:94-101 | visiting the empty URL writes nothing |
| BatchRunner.StripPlainLines | medium_scraper.py:91 | stripping lines made of plain links gives back the links |
| BatchRunner.UrlsToScrape | medium_scraper.py:87-91 | one URL per line of the file, the i-th being the i-th line stripped; a file that cannot be read gives no URL |
| BatchRunner.UrlCount | medium_scraper.py:87-91 | the number of URLs is the number of line breaks, plus one for a last line without a break |
| BatchRunner.UrlsOfLinkFile | medium_scraper.py:87-91 | the links file, read back, gives the header word first, then each saved link unchanged |
| BatchRunner.HeaderYieldsNothing | medium_scraper.py:96 | visiting the header word `link` yields no record |
| BatchRunner.LinkFileProducesLinksOnly | medium_scraper.py:85-101 | scraping the links file writes exactly the rows of its links |
| UrlScraper.ScrapeMediumRss | url_scraper.py:7-12 | one `{"link": ...}` per feed entry, in feed order; no list when an entry has no link |
| UrlScraper.Dedup | url_scraper.py:22 | `drop_duplicates` keeps exactly the values of its input |
| UrlScraper.DedupNoDuplicates | url_scraper.py:22 | no link is kept twice |
| UrlScraper.DedupOrder | url_scraper.py:22 | kept links are in the order of their first occurrences |
| UrlScraper.DedupOfNoDuplicates | url_scraper.py:22 | a list without duplicates is unchanged |
| UrlScraper.DedupIdempotent | url_scraper.py:22 | de-duplicating twice gives the same as de-duplicating once |
| UrlScraper.DedupAppend | url_scraper.py:22 | the result for a + b is that for a, then the first occurrences of what b adds that a does not hold |
| UrlScraper.DedupAbsorbs | url_scraper.py:22 | appending links already present changes nothing |
| UrlScraper.SaveToCsv | url_scraper.py:14-25 | the file is rewritten with the old links (none when it did not exist) and the new ones, de-duplicated |
| UrlScraper.RunLinkDiscovery | url_scraper.py:27-32 | the file is saved exactly when the feed gives a non-empty list, and is otherwise unchanged |
| UrlScraper.SavedHoldsEachLinkOnce | url_scraper.py:14-24 | after saving, every old and every new link is in the file, and each only once |
| UrlScraper.SavedOrder | url_scraper.py:22 | old links come first, then the unseen new links in feed order |
| UrlScraper.SaveTwice | url_scraper.py:14-24 | saving the same batch twice gives the same file as saving it once |
| UrlScraper.LinkFileText | url_scraper.py:24 | the text `to_csv(index=False)` writes starts with the header line `link` and ends with a line break |
| Frames.Assign | medium_analysis/model.py:41-44 | `df[name] = col` replaces the named column where it stands, or appends it at the right; the table stays well formed |
| Frames.AssignKeepsOthers | medium_analysis/model.py:41-44 | an assignment leaves every other column, and the existing column order, unchanged |
| Frames.Frame.SetColumn | medium_analysis/model.py:23 | the frame in place becomes the assignment of its old state |
| Features.FillNa | medium_analysis/model.py:23 | after `fillna('')` no cell is missing: each missing cell is "" and every other cell is kept |
| Features.LowerColumn | medium_analysis/model.py:26 | `.apply(lambda x: x.lower())` fails with AttributeError exactly when a cell is not text; otherwise it lower-cases each cell |
| Features.LengthColumn | medium_analysis/model.py:41-42 | `.apply(len)` fails with TypeError exactly when a cell is not text; otherwise it gives each cell's length |
| Features.LoadAndPreprocessData | medium_analysis/model.py:9-28 | FileNotFound without a file; KeyError without a subtitle column; otherwise the frame with its subtitle column filled and lower-cased |
| Features.PreprocessSucceedsIff | medium_analysis/model.py:20-26 | preprocessing succeeds exactly when there is a subtitle column and every subtitle is text or missing |
| Features.PreprocessedSubtitles | medium_analysis/model.py:23-26 | afterwards no subtitle is missing: a missing one is "", every other is its lower-cased text, row for row |
| Features.PreprocessKeepsOthers | medium_analysis/model.py:20-28 | preprocessing keeps the row count, the column order and every other column |
| Features.PreprocessIdempotent | medium_analysis/model.py:23-26 | preprocessing a preprocessed table changes nothing |
| Features.StepOn | medium_analysis/model.py:41-44 | one feature assignment keeps the table well formed and its height |
| Features.ApplyStep | medium_analysis/model.py:41-44 | one assignment on the frame: the error and an unchanged frame, or the assigned frame |
| Features.CreateFeatures | medium_analysis/model.py:30-62 | the frame ends with the columns assigned before any exception; the result is X and y or the exception |
| Features.AddFeaturesOutcome | medium_analysis/model.py:41-44 | the four assignments succeed exactly when title, subtitle, image_count and tags exist and every title and subtitle is text; otherwise the first failing line's exception: KeyError for a missing title, subtitle, image_count or tags column, TypeError for a non-text title or subtitle |
| Features.AddFeaturesCountFailures | medium_analysis/model.py:43-44 | with text titles and subtitles, a missing image_count raises KeyError("image_count"), and a missing tags column then raises KeyError("tags") |
| Features.AddFeaturesColumns | medium_analysis/model.py:41-44 | title_length and subtitle_length are per-row character lengths, num_images equals image_count, num_tags is the per-row tag count, and every other column is unchanged |
| Features.TitleLengthAdded | medium_analysis/model.py:41 | title_length is the length of each row's title |
| Features.SubtitleLengthAdded | medium_analysis/model.py:42 | subtitle_length is the length of each row's subtitle |
| Features.NumImagesAdded | medium_analysis/model.py:43 | num_images equals image_count |
| Features.NumTagsAdded | medium_analysis/model.py:44 | num_tags is each row's tag count |
| Features.FeatureColumnsAdded | medium_analysis/model.py:41-44 | when no assignment raises, all four feature columns exist |
| Features.AddFeaturesKeeps | medium_analysis/model.py:41-44 | a column other than the four features is neither added, removed nor changed |
| Features.FeaturesOutcome | medium_analysis/model.py:30-62 | create_features succeeds exactly when the assignments succeed, the vectorizer succeeds and `success` exists; each failure gives its exception |
| Features.FeaturesShape | medium_analysis/model.py:51-60 | X and y have one row per input row; y is the `success` column unchanged; X's names are the text positions as text, then the four feature names, none twice |
| Features.FeaturesColumns | medium_analysis/model.py:41-54 | X's last four columns are, row for row, the title's length, the subtitle's length, image_count, and the tag count |
| Features.XNames | medium_analysis/model.py:51-57 | X's column names are "0", "1", … for the text block, then the four feature names; no name twice |
| Features.LabelNamesDistinct | medium_analysis/model.py:57 | after `astype(str)` no two column labels are equal |
| Features.BuildXColumns | medium_analysis/model.py:51-54 | the concatenation has the text block's columns, then the four feature columns, all as tall as the table |
| Features.TagCount | medium_analysis/model.py:44 | a non-text cell counts 0, a text cell at least 1, and a text without a comma exactly 1 |
| Features.TagCountCommas | medium_analysis/model.py:44 | a text cell counts its commas plus one; any other cell counts 0 |
| Features.TagCountOfJoined | tests/test_model.py:19 | comma-free tags joined by "," count as themselves: "tag1,tag2" gives 2, "tag3,tag4,tag5" gives 3 |
| Features.TagCountOfWrittenTags | medium_analysis/model.py:44 | the `str(tags)` cell the scraper writes counts one per tag, and 1 for no tags |
| ModelScript.RunScript | model.py:8-33 | the script's X and y, or its exception, equal loading, preprocessing and then feature creation |
| ModelScript.CleanSubtitles | model.py:11-14 | the subtitle is filled and then lower-cased in place, or the exception is raised |
| ModelScript.DeriveFeatures | model.py:17-20 | the four feature columns are assigned in place in turn until one raises |
| ModelScript.ScriptEarlyFailures | model.py:8-14 | no file gives FileNotFound; no subtitle column gives KeyError; a subtitle that is neither text nor missing gives AttributeError |
| ModelScript.ScriptShape | model.py:27-33 | y is the loaded `success` column; X has one row per loaded row; its names end with the four feature names, none twice |
| ModelScript.ScriptFeatureColumns | model.py:11-20 | X's feature columns come from the loaded table: title length; subtitle length (0 where the subtitle was missing); image_count; tag count |
| ModelScript.SubtitleLengths | model.py:11-18 | a filled and lower-cased subtitle is as long as the loaded one, or empty where it was missing |

## Left out

- HTTP and HTML parsing (`requests`, BeautifulSoup, lxml). A page is given as what the queries return: the first h1 and h2 texts, the tag-div texts, the image count and the read-time text. The network is a map from URL to reply. `requests` accepts a URL only when it begins with `http://` or `https://` in any case; every other transport error is a `TransportFault`.
- `feedparser` and the feed URL. The feed is given as its list of entries.
- TF-IDF vectorisation (`TfidfVectorizer.fit_transform`), `train_test_split`, `RandomForestClassifier` and the metrics. They are library internals on floating point. The vectorizer's block is an input of the promised shape (at most 1000 columns, one row per subtitle), or None when it raises.
- `pd.read_csv` type inference and CSV quoting. A loaded table is given as cells that are missing, text, integers or reals. The links file is modelled as text only for links without commas, quotes, line breaks or surrounding whitespace.
- Index alignment in `pd.concat(axis=1)`. Both parts are assumed to have the default 0..n-1 row index, which `read_csv` gives.
- Unicode. `lower()` maps ASCII letters only, and `\d` matches ASCII digits only. `repr()` follows Python's rules for ASCII and keeps other characters as they are.
- ModelScript.SubtitleLengths and ModelScript.ScriptFeatureColumns: they state that lower-casing keeps each subtitle's length. That holds for the ASCII-only `lower()` modelled here, not for all of Python's `str.lower()`, where one character can become two (`'İ'.lower()` has length 2).
- Extractor.ReadTimeMinutes: Python's `int()` on a digit string has no length limit here. Python 3.11 and later (and recent security releases of 3.7 to 3.10) raise ValueError for more than 4300 digits; the handler at medium_scraper.py:59-61 then returns None, while the model gives a record.
- `os.path.exists` and the file system. A file is its content, with `None` while it does not exist. `writable` says whether opening it for appending succeeds.
- Console output (`print`), `time`, the module-level runs in medium_scraper.py:108-113 and test.py, `main` and `train_and_evaluate_model` in medium_analysis/model.py, and setup.py.
- `pd.errors.EmptyDataError` and other read errors of `save_to_csv`. Only a missing links file is handled, as the code handles it.
- UrlScraper.RunLinkDiscovery: a feed entry without a link makes url_scraper.py:11 raise AttributeError, which nothing catches, so the script stops. The model returns `written == false` instead. The links file is unchanged in both cases.
- UrlScraper.SaveToCsv: a failure of `to_csv` (url_scraper.py:24) is not modelled; the method always rewrites the file.
- UrlScraper.Dedup: its contract states membership only. No duplicates, first-occurrence order, idempotence and concatenation are separate lemmas beside it.
