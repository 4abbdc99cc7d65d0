# Automated insight engine: a verified model

This project models the core of the "Automated Insight Engine". It covers
the report pipeline `run_report` (scripts/generate_report.py) and the
HTTP handlers that drive it (scripts/api_server.py).

`run_report` goes through these steps:

- It chooses a CSV dataset: the explicit path, else the current dataset, else the bundled Netflix file.
- It reads the dataset and strips the column labels.
- It derives `duration_num` from the first run of digits in each duration.
- It coerces `release_year` to numbers.
- It computes six aggregates:
  - the top ten genres
  - the top ten directors
  - the rating counts
  - the titles per year
  - the type counts
  - the mean duration per type
- It saves a chart for every aggregate that is not empty, under a fixed key and image path.
- Optionally, it writes a PDF and a slide deck. Both list the charts in a fixed order after the summary block.

The server exposes five handlers:

- `/upload` refuses a file whose lower-cased extension is not `.csv`. Otherwise it stores the file under `uploads/` and as `data/current_dataset.csv`.
- `/ingest` copies a server-side file into that slot and reports its row count.
- `/analyze` runs the pipeline without documents.
- `/generate-report` runs it with documents.
- `/get-report/{pdf|pptx}` serves a generated document.

The project directory is modelled as a map from paths (relative to the
project root) to file contents. A CSV file is represented by the table
pandas reads from it. Each handler is a method on that map (the class
`Storage.Disk`). Each method is proved equal to a function of the files
before the request: the handler's response and the files after it. The
properties are lemmas about those functions:

- what each request writes, and that it writes nothing else
- the error paths with their status codes and texts
- that both documents can be downloaded after `/generate-report`
- that `/analyze` leaves earlier downloads alone
- that `/analyze` and `/generate-report` differ only in the two documents

The pandas operations the pipeline uses are specified by their properties:

- `value_counts`: every entry carries its true count, no value is listed twice, counts never increase, and every value appears.
- `head(10)`: nothing left out is counted more than the last entry kept.
- `str.split(", ")`: splitting and joining are mutual inverses.
- `str.strip()`: the result is the part of the text between the leading and the trailing whitespace, and stripping is idempotent.
- `splitext`: the extension is exactly the suffix that starts at the last dot of the last path component, when something other than dots precedes that dot.
- The grouped mean: each type maps to the exact mean of its parsed durations.

The chart conditions are traced back to the raw table. For example,
`titles_per_year` is drawn exactly when some `release_year` cell coerces
to a number.

Two behaviours of the code are worth stating plainly:

- **Explicit path.** An explicit path is used as given. When it does not exist the run fails with `CSV file not found: <path>`; it never falls back to another dataset.
- **Duration number.** `duration_num` takes the first run of digits anywhere in the text, as `str.extract(r"(\d+)")` does. So `"Season 2"` yields 2.

Files:

- wrappers.dfy: `Option` and `Result`.
- text.dfy: digits and integer parsing, the first digit run, `strip`, `split`/`join`.
- counting.dfy: `value_counts`, `head`, counting by sorted key.
- frames.dfy: the table, column lookup and assignment, and the in-place `Frame`.
- aggregates.dfy: the six aggregates and the chart conditions.
- documents.dfy: the PDF and deck loops.
- storage.dfy: read_csv, the disk, and copy.
- report.dfy: `run_report`.
- api.dfy: the handlers.
- scenarios.dfy: a worked two-title example.

## Model

| member | source | states |
|---|---|---|
| Text.ParseInt | scripts/generate_report.py:79 | a text coerces only when it is an optional sign followed by one or more digits; a digit string coerces to its decimal value, a leading plus keeps it and a leading minus negates it |
| Text.ParseIntRoundTrip | scripts/generate_report.py:79 | every integer written as text coerces back to itself |
| Text.DigitsRoundTrip | scripts/generate_report.py:79 | reading back a decimal numeral gives the number that was written |
| Text.FirstDigitRun | scripts/generate_report.py:72 | the extraction finds nothing exactly when the text holds no digit |
| Text.FirstDigitRunOf | scripts/generate_report.py:72 | for a text made of a digit-free prefix, a digit run and a part not starting with a digit, the extraction yields the value of that run |
| Text.FirstDigitRunOfNumeral | scripts/generate_report.py:69-74 | "<n> min" or "<n> Seasons" extracts to n |
| Text.LeadingSpaces | scripts/generate_report.py:66 | the count is a whitespace prefix not followed by whitespace |
| Text.TrailingSpaces | scripts/generate_report.py:66 | the count is a whitespace suffix not preceded by whitespace |
| Text.Strip | scripts/generate_report.py:66 | the stripped label is no longer than the label and neither starts nor ends with whitespace |
| Text.StripCut | scripts/generate_report.py:66 | the stripped label is the contiguous part of the label between its leading and trailing whitespace |
| Text.StripOf | scripts/generate_report.py:66 | stripping whitespace-padded text gives back exactly its core |
| Text.StripIdempotent | scripts/generate_report.py:66 | stripping twice is stripping once |
| Text.LeadingSpacesOf | scripts/generate_report.py:66 | the leading whitespace of pre + rest is pre when rest does not start with whitespace |
| Text.TrailingSpacesOf | scripts/generate_report.py:66 | the trailing whitespace of core + post is post when core does not end with whitespace |
| Text.FindSeparator | scripts/generate_report.py:93 | the leftmost occurrence of ", ", or none when there is none |
| Text.Split | scripts/generate_report.py:93 | split always yields at least one piece and no piece contains ", " |
| Text.JoinSplit | scripts/generate_report.py:93 | joining the pieces with ", " gives back the cell text |
| Text.SplitJoin | scripts/generate_report.py:93 | splitting a join of separator-free pieces gives back the pieces |
| Counting.Distinct | scripts/generate_report.py:95 | the distinct values, each once, exactly the values of the input |
| Counting.SortByCount | scripts/generate_report.py:95 | the keys reordered by non-increasing count, none lost or repeated |
| Counting.ValueCounts | scripts/generate_report.py:95 | every entry has its true count, which is positive; no value is listed twice; every input value is listed; counts never increase |
| Counting.Top | scripts/generate_report.py:95-96 | head(10) of the counts: min(10, distinct values) entries with true counts, in non-increasing order, and no value left out is counted more than the last one kept |
| Counting.TakeCounts | scripts/generate_report.py:96 | taking the first n counts keeps their properties and leaves out nothing that beats the last entry |
| Counting.SortAscending | scripts/generate_report.py:149 | distinct years come out strictly ascending, none lost |
| Counting.CountsByKey | scripts/generate_report.py:149 | value_counts().sort_index(): strictly ascending keys, exactly the input values, each with its positive true count |
| Frames.IndexOf | scripts/generate_report.py:69-79 | the position of the first column with that label |
| Frames.Column | scripts/generate_report.py:70 | df[name] yields one cell per row |
| Frames.WithColumn | scripts/generate_report.py:69-79 | df[name] = values: the column reads back as values, every other column is unchanged, and a new label is appended at the end |
| Frames.StripNames | scripts/generate_report.py:66 | one label per label, each no longer than before and neither starting nor ending with whitespace |
| Frames.StripNamesIdempotent | scripts/generate_report.py:66 | stripping the stripped labels changes none of them |
| Frames.AsString | scripts/generate_report.py:71 | a missing cell becomes "nan", a text stays itself, and a number becomes a numeral that coerces back to it |
| Frames.Frame.constructor | scripts/generate_report.py:63 | the frame holds the table that was read |
| Frames.Frame.StripColumnNames | scripts/generate_report.py:66 | the labels are replaced by their stripped forms, in place and in order; the rows are unchanged |
| Frames.Frame.Set | scripts/generate_report.py:69-79 | assigning a column in place leaves the frame equal to WithColumn of its previous state |
| Aggregates.DropMissing | scripts/generate_report.py:91 | dropna keeps exactly the non-missing values |
| Aggregates.DropMissingCount | scripts/generate_report.py:113 | dropna leaves every other value's count unchanged |
| Aggregates.DropMissingEmpty | scripts/generate_report.py:113-114 | dropna leaves something exactly when some cell is present |
| Aggregates.GenrePieces | scripts/generate_report.py:89-94 | the stacked genre pieces are non-empty exactly when some listed_in cell is present; GenrePiecesAppend and GenrePiecesOfCell pin them to each present cell's ", "-split pieces, in row order and with repeats |
| Aggregates.GenrePiecesAppend | scripts/generate_report.py:89-94 | the pieces of two stacked parts of a column are the pieces of the first part followed by those of the second |
| Aggregates.GenrePiecesOfCell | scripts/generate_report.py:91-93 | one cell gives no piece when it is missing, and otherwise the ", "-split pieces of its text |
| Aggregates.GenrePiecesCount | scripts/generate_report.py:89-95 | appending a cell raises each genre's count by its count among that cell's pieces |
| Aggregates.Numbers | scripts/generate_report.py:149 | the parsed years are exactly the numeric cells, each year as often as it occurs in the column |
| Aggregates.MeanByGroup | scripts/generate_report.py:175 | exactly the present types with a parsed duration, each mapped to the exact mean of its parsed durations |
| Aggregates.Mean | scripts/generate_report.py:175 | the result is sum divided by count |
| Aggregates.GroupSizePositive | scripts/generate_report.py:175 | a type has parsed rows exactly when some row of it has a number |
| Aggregates.GroupAppend | scripts/generate_report.py:175 | adding a row changes only its own type's count and sum |
| Aggregates.UnparsedRowIgnored | scripts/generate_report.py:175 | a row without a parsed duration changes no mean (dropna on duration_num) |
| Aggregates.MissingGroupIgnored | scripts/generate_report.py:175 | a row with a missing type changes no mean (groupby drops NaN keys) |
| Aggregates.ParsedRowCounted | scripts/generate_report.py:175 | a parsed row enters its own type's count and sum and no other |
| Aggregates.MeanAgree | scripts/generate_report.py:175 | inputs with equal per-type counts and sums have equal means |
| Aggregates.TopGenres | scripts/generate_report.py:88-97 | head(10) of the genre counts: min(10, distinct pieces) entries, none twice, in non-increasing order, each with its positive count among the split pieces, and no piece left out is counted more than the last kept; empty exactly when listed_in is absent or holds no present cell |
| Aggregates.TopDirectors | scripts/generate_report.py:112-113 | head(10) of the director counts: min(10, distinct present directors) entries, none missing or twice, in non-increasing order, each with its count in the director column, and no present director left out is counted more than the last kept; empty exactly when director is absent or holds no present cell |
| Aggregates.RatingCounts | scripts/generate_report.py:127-128 | exactly the present ratings, each once, with its count in the rating column, in non-increasing order |
| Aggregates.TitlesPerYear | scripts/generate_report.py:148-149 | exactly the numeric release years, strictly ascending, each with the number of cells holding that year |
| Aggregates.TypeCounts | scripts/generate_report.py:161-162 | exactly the present types, each once, with its count in the type column, in non-increasing order |
| Aggregates.Counted | scripts/generate_report.py:128 | value_counts of a column (also for type at line 162): exactly its present values, each once, with its count in the column, in non-increasing order |
| Aggregates.AverageDuration | scripts/generate_report.py:174-175 | a type is a key exactly when both columns exist, it is present and some row of it has a parsed duration; it then occurs in the type column and maps to the exact mean of its parsed durations |
| Aggregates.TopNonEmpty | scripts/generate_report.py:96-99 | head(10) is empty exactly when its input is |
| Aggregates.GenresChart | scripts/generate_report.py:88-105 | top_genres is drawn exactly when listed_in exists and holds a present cell |
| Aggregates.DirectorsChart | scripts/generate_report.py:112-120 | top_directors is drawn exactly when director exists and holds a present cell |
| Aggregates.RatingsChart | scripts/generate_report.py:127-141 | rating_distribution is drawn exactly when rating exists and holds a present cell |
| Aggregates.YearsChart | scripts/generate_report.py:148-156 | titles_per_year is drawn exactly when release_year exists and holds a number |
| Aggregates.TypesChart | scripts/generate_report.py:161-169 | type_count is drawn exactly when type exists and holds a present cell |
| Aggregates.AvgDurationChart | scripts/generate_report.py:174-182 | avg_movie_duration is drawn exactly when some row has both a present type and a parsed duration |
| Aggregates.ChartKeysExactly | scripts/generate_report.py:83-182 | ChartKeys, the keys whose HasChart guard holds, are only the six fixed keys, each exactly under its condition |
| Documents.ChartsInOrder | scripts/generate_report.py:236-244 | the listed charts are exactly the drawn keys of the fixed order, each once |
| Documents.ChartsInOrderKeepsOrder | scripts/generate_report.py:236-244 | the charts appear in the fixed order |
| Documents.BuildPdf | scripts/generate_report.py:225-246 | the PDF holds the title, then the summary if there is one, then a picture per drawn chart in the fixed order |
| Documents.AddPictures | scripts/generate_report.py:236-246 | the image loop adds a picture for every key of the order that was drawn |
| Documents.BuildDeck | scripts/generate_report.py:255-280 | the deck holds a summary slide, with the summary only when there is one, then a slide per drawn chart in the fixed order |
| Documents.AddChartSlides | scripts/generate_report.py:270-280 | the slide loop adds a slide for every key of the order that was drawn |
| Documents.ChartCount | scripts/generate_report.py:236-246 | every drawn chart is listed exactly once |
| Documents.PdfShape | scripts/generate_report.py:225-246 | the PDF has its title, a paragraph exactly when the summary is non-empty, and one picture per drawn chart |
| Documents.DeckShape | scripts/generate_report.py:255-280 | the deck has one slide more than there are charts, and its first slide carries the summary only when there is one |
| Storage.ReadCsv | scripts/generate_report.py:63 | reading succeeds exactly for a CSV table and gives that table; otherwise it fails with the parser's reason |
| Storage.Disk.constructor | scripts/generate_report.py:59 | the disk starts with the given files |
| Storage.Disk.Write | scripts/generate_report.py:33 | a write creates or replaces one file, and only that file |
| Storage.Disk.Copy | scripts/api_server.py:77 | copying a file onto itself fails with the same-file message and changes nothing; otherwise the destination receives the source's content and nothing else changes |
| Report.Resolve | scripts/generate_report.py:50-60 | an explicit path is used as given; without one, the current dataset is preferred and the bundled file is the fallback; the run fails with "CSV file not found: <path>" exactly when an explicit path is missing, or when neither default exists |
| Report.DurationNumber | scripts/generate_report.py:69-74 | the derived duration is missing exactly when the cell's text has no digit, and is otherwise a non-negative number |
| Report.DurationOfNumeral | scripts/generate_report.py:69-74 | "<n> min" or "<n> Seasons" yields n |
| Report.DurationOfMissing | scripts/generate_report.py:71-72 | a missing duration reads as "nan" and yields no number |
| Report.YearValue | scripts/generate_report.py:79 | coercion keeps numbers, keeps missing cells missing, and yields a number or missing |
| Report.YearOfNumeral | scripts/generate_report.py:79 | a year written in decimal coerces to that year |
| Report.Prepared | scripts/generate_report.py:66-79 | the prepared frame is rectangular |
| Report.PrepareFeatures | scripts/generate_report.py:66-79 | the in-place cleaning leaves the frame equal to Prepared of the table read |
| Report.PreparedShape | scripts/generate_report.py:66-79 | preparation keeps every row and every stripped label in order; it adds duration_num at the end unless it is already there, and changes only duration_num and release_year |
| Report.PreparedColumns | scripts/generate_report.py:66-76 | the labels after preparation are the stripped labels, plus duration_num when it was absent |
| Report.PreparedDurations | scripts/generate_report.py:68-76 | duration_num always exists and holds the extracted numbers, or only missing cells when there is no duration column |
| Report.PreparedYears | scripts/generate_report.py:78-79 | release_year exists after preparation exactly when it did before, and holds the coerced cells |
| Report.KeptColumn | scripts/generate_report.py:66-79 | every other column survives preparation unchanged |
| Report.PlotsAfterIs | scripts/generate_report.py:83-182 | after the first n chart blocks, plot_files maps each drawn key among them to its image path |
| Report.PlotsAfterAll | scripts/generate_report.py:83-182 | after all six blocks, plot_files is the map of drawn keys to image paths |
| Report.DrawChart | scripts/generate_report.py:99-105 | one block saves its chart and records it exactly when the chart is drawn |
| Report.DrawCharts | scripts/generate_report.py:88-182 | the six blocks leave plot_files and the saved images as the specification functions say |
| Report.Analyze | scripts/generate_report.py:66-182 | preparation in place, then the six blocks |
| Report.ChartPathInjective | scripts/generate_report.py:31 | different charts are saved under different paths |
| Report.ChartPathDistinct | scripts/generate_report.py:31 | no chart image is saved over a dataset or a document |
| Report.ChartsWrittenIs | scripts/generate_report.py:83-182 | after n blocks, every drawn chart's image is in place and every other file is as it was |
| Report.ImagesWritten | scripts/generate_report.py:105 | every drawn chart's image is written by the blocks that draw it |
| Report.OtherFileKept | scripts/generate_report.py:83-182 | a file that is not a drawn chart's image is untouched |
| Report.ChartsOfTable | scripts/generate_report.py:83-182 | the six blocks write exactly the images of plot_files |
| Report.WriteDocuments | scripts/generate_report.py:248-283 | the PDF and the deck are written over any earlier ones |
| Report.DocumentsWritten | scripts/generate_report.py:248-283 | writing the documents replaces the two documents and nothing else |
| Report.Run | scripts/generate_report.py:38-294 | a run succeeds exactly when the dataset resolves and reads as a table; a failure writes nothing; a success reports the resolved path and the summary, and names the PDF and the deck exactly when asked; RunWrites and RunFlagOnly give its files |
| Report.RunReport | scripts/generate_report.py:38-294 | the pipeline's result and the files it leaves are those of Run on the files before it |
| Report.RunFailureWritesNothing | scripts/generate_report.py:59-63 | a failed run writes no file |
| Report.RunMissingSource | scripts/generate_report.py:59-60 | a missing explicit path fails with its not-found message, whatever else exists |
| Report.RunWrites | scripts/generate_report.py:218-294 | a successful run writes each drawn chart's image; it writes the PDF and the deck with their contents exactly when asked, and leaves every other file alone |
| Report.WrittenIs | scripts/generate_report.py:218-294 | RunWrites for the table that was read |
| Report.RunFlagOnly | scripts/generate_report.py:221 | generate_files changes only the documents: the same error, dataset, charts and summary either way, plus the two documents when set |
| Report.AnalysisKeepsDocuments | scripts/generate_report.py:221 | a run without documents keeps any earlier PDF and deck |
| Report.DocumentsPresent | scripts/generate_report.py:248-283 | after a run that writes documents, both are present |
| Report.InPlotFiles | scripts/generate_report.py:83-182 | a key is in plot_files exactly when its chart condition holds |
| Report.RawGenres | scripts/generate_report.py:66-105 | top_genres is drawn exactly when the raw table has a listed_in column with a present cell |
| Report.RawDirectors | scripts/generate_report.py:66-120 | top_directors is drawn exactly when the raw table has a director column with a present cell |
| Report.RawRatings | scripts/generate_report.py:66-141 | rating_distribution is drawn exactly when the raw table has a rating column with a present cell |
| Report.YearColumnHasNumber | scripts/generate_report.py:79 | the coerced column holds a number exactly when some raw cell coerces |
| Report.RawYears | scripts/generate_report.py:78-156 | titles_per_year is drawn exactly when some raw release_year cell coerces to a number |
| Report.RawTypes | scripts/generate_report.py:66-169 | type_count is drawn exactly when the raw table has a type column with a present cell |
| Report.RawAvgDuration | scripts/generate_report.py:68-182 | avg_movie_duration is drawn exactly when duration and type exist and some row has a present type and a duration text with a digit |
| Report.PlotKeysFixed | scripts/generate_report.py:83-182 | PlotFiles, the plot_files map, uses only the six keys, each mapped to its image path |
| Scenarios.TopOfTwoValues | scripts/generate_report.py:95-96 | with two distinct values, the more frequent one comes first |
| Scenarios.GenrePiecesOfTwo | scripts/generate_report.py:89-94 | "a, b" and "a" give the genre pieces a, b, a |
| Scenarios.TwoTitlesGenres | scripts/generate_report.py:88-97 | for the two titles, top genres are a twice and b once |
| Scenarios.TwoTitlesTypes | scripts/generate_report.py:161-162 | two titles of different types are counted once each |
| Scenarios.TwoTitlesDurations | scripts/generate_report.py:68-76 | "<m> min" for one type and "<k> Seasons" for another average to m and k |
| Scenarios.TwoTitlesYears | scripts/generate_report.py:148-149 | two release years are counted once each, in ascending order |
| Scenarios.TwoTitlesCharts | scripts/generate_report.py:83-182 | with no director column, every chart except top_directors is drawn |
| Scenarios.DramaComedy | scripts/generate_report.py:89-97 | Drama twice and Comedy once rank Drama first |
| Scenarios.MovieAndShow | scripts/generate_report.py:175 | a 90-minute movie and a two-season show average to 90 and 2 |
| ApiServer.RFind | scripts/api_server.py:45 | the last position of the character, or -1 |
| ApiServer.Extension | scripts/api_server.py:45 | a non-empty extension is a suffix of the name that starts with a dot and holds no further dot and no separator; ExtensionShape and ExtensionOf pin it to splitext exactly |
| ApiServer.ExtensionShape | scripts/api_server.py:45 | a non-empty extension starts at the last dot of the last component and follows a stem that is not only dots |
| ApiServer.ExtensionOf | scripts/api_server.py:45 | every suffix of that shape is the extension splitext finds |
| ApiServer.CsvUploadIff | scripts/api_server.py:45-46 | IsCsvUpload, the guard, holds for a name exactly when it ends in ".csv" in any case, after a last component that is not only dots |
| ApiServer.UpperCaseAccepted | scripts/api_server.py:45-46 | "A.CSV" is accepted |
| ApiServer.HiddenCsvRefused | scripts/api_server.py:45-46 | ".csv" has no extension and is refused |
| ApiServer.LastExtensionCounts | scripts/api_server.py:45-46 | "report.csv.txt" is refused |
| ApiServer.UploadPathNotDataset | scripts/api_server.py:49-55 | as path strings, "uploads/" + name is never "data/current_dataset.csv"; paths are not normalised (see "Left out") |
| ApiServer.UploadResult | scripts/api_server.py:43-61 | refused exactly when the guard fails, with 400 and no change; otherwise the answer names both paths, and the files gain exactly those two paths, both holding the content |
| ApiServer.Upload | scripts/api_server.py:43-61 | the handler's response and the files after it are those of UploadResult |
| ApiServer.UploadEffect | scripts/api_server.py:43-61 | a name that fails the guard gets 400 and nothing changes; an accepted file is stored under uploads/ and in the current-dataset slot, and nothing else changes |
| ApiServer.UploadSelectsDataset | scripts/api_server.py:53-55 | after an upload, a run without a path reads the uploaded content |
| ApiServer.IngestResult | scripts/api_server.py:67-87 | a missing path gets 404 and no change; the files are either unchanged or the slot alone takes the file's content; success exactly when the path exists, is not the slot and reads as a table, reporting its row count; any other failure is 500 |
| ApiServer.Ingest | scripts/api_server.py:67-87 | the handler's response and the files after it are those of IngestResult |
| ApiServer.IngestMissing | scripts/api_server.py:72-73 | a missing path gets 404 "File not found: <path>" and nothing changes |
| ApiServer.IngestEffect | scripts/api_server.py:75-87 | the slot receives the file's content and nothing else changes; the request succeeds exactly when the content reads as a table, and then reports its row count; otherwise it gets 500 |
| ApiServer.IngestSelf | scripts/api_server.py:77 | ingesting the slot onto itself gets 500 and changes nothing |
| ApiServer.IngestTwice | scripts/api_server.py:67-87 | repeating an ingest gives the same response and changes nothing more |
| ApiServer.AnalyzeResult | scripts/api_server.py:93-109 | a 500 exactly when the run fails, with the run's error as the detail and no change; otherwise JSON carrying the summary; whether each document exists is as before |
| ApiServer.GenerateResult | scripts/api_server.py:115-133 | a 500 exactly when the run fails, with the run's error as the detail and no change; otherwise JSON carrying the summary and both document paths, and both documents exist afterwards |
| ApiServer.Analyze | scripts/api_server.py:93-109 | the handler's response and the files after it are those of AnalyzeResult |
| ApiServer.GenerateReport | scripts/api_server.py:115-133 | the handler's response and the files after it are those of GenerateResult |
| ApiServer.AnalyzeVersusGenerate | scripts/api_server.py:93-133 | the two handlers fail together with the same 500 detail or succeed with the same dataset, charts and summary; the generating one also writes the two documents |
| ApiServer.AnalyzeMissingSource | scripts/api_server.py:100-109 | a missing source gets 500 with the not-found message, on both handlers |
| ApiServer.GetReportResult | scripts/api_server.py:139-151 | the file is served exactly when the document exists, under its path and download name; otherwise the answer is 404 |
| ApiServer.GetReport | scripts/api_server.py:139-151 | the download changes no file, and its response is GetReportResult |
| ApiServer.GetReportEffect | scripts/api_server.py:141-151 | the file is served exactly when the document exists, under its path and file name; otherwise the answer is 404 "<PDF or PPTX> report not found. Generate it first." The two kinds never share a file |
| ApiServer.GenerateThenDownload | scripts/api_server.py:115-151 | after a successful /generate-report both documents can be downloaded |
| ApiServer.AnalyzeKeepsDownloads | scripts/api_server.py:93-151 | /analyze leaves every download answer as it was |

## Left out

- CSV parsing: pd.read_csv and its dtype inference are not modelled. A file is either the table pandas reads from it or an unreadable file that carries the parser's reason text, which is any string. In the model, a chart image, a document or a non-rectangular table fails with the fixed text "Error tokenizing data"; pandas would raise its own error, such as a UnicodeDecodeError for a binary file, and that text is what the handlers report.
- Chart rendering: matplotlib and seaborn are not modelled (figure sizes, titles, axis labels, styles, tight_layout). A saved chart is an opaque image named by its key.
- Document layout: PDF and slide layout (fonts, sizes, positions, page breaks, the blank slide layout) is not modelled. The documents are modelled as their sequence of elements.
- The narrative summary: it comes from an external chat-completion service, so it is a parameter; the empty string stands for the service being disabled or failing. The prompt text and the console output are not modelled.
- Report.YearValue: pd.to_numeric on text accepts only an optional sign and decimal digits here. Texts such as "2020.0", " 2020" or "1e3", which pandas parses as floats, become missing. Cells read as numbers are kept, as pandas does.
- Floating point: durations and means are exact integers and reals. float64 rounding is not modelled.
- Tie order: value_counts lists equal counts in an order pandas does not promise, so the contracts state only the properties above. The row order of groupby and the plotting order of the bars are left out too.
- Unicode: only ASCII digits are digits, and `lower()` folds only ASCII letters. Python's `\d`, `isspace()` and `lower()` also cover other scripts. Whitespace follows Python's `isspace()` set.
- Duplicate column labels: lookup uses the first column with a label. pandas would return a frame instead.
- ApiServer.UploadPathNotDataset, ApiServer.UploadEffect: a file name containing `..` or starting with `/` is written where the normalised path points, not under `uploads/`. The name "../data/current_dataset.csv" makes the upload path the slot itself: the code writes the slot and then `shutil.copy` raises SameFileError, so the answer is 500. The model compares unnormalised strings, so it answers such an upload with success and two separate writes.
- Paths: a path is a string relative to the project root. Normalisation, `..`, absolute paths, symbolic links, directories and permissions are not modelled. `shutil.copy` detects "same file" by equal strings.
- Upload body: the upload stream is not modelled. The uploaded content is a parameter, and a missing file name (FastAPI's validation) is left out.
- FastAPI: request validation and the 422 answer for a `report_type` other than pdf or pptx are not modelled; the two kinds are a datatype. CORS, the root endpoint (scripts/api_server.py:35-37) and the application metadata are left out too.
- Directory creation: `makedirs` and `mkdir` at import time are not modelled; directories are implicit in paths.
- Concurrency between requests is not modelled.
- Failures after the dataset is read: savefig errors, FPDF errors on images or on text outside Latin-1, and disk-full errors are not modelled. A run that has read its table always succeeds. A read failure in /ingest after the copy keeps the copied file, as the code does.
