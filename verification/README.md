# Trustpilot review pipeline — a verified model of its deterministic core

The pipeline turns a dump of Trustpilot reviews into a chart of average
ratings per customer-journey step:

1. **Chunking** (`main.py`, and again with other constants in `sentiment.py`):
   the review list is cut into consecutive slices of 10 reviews, at most 9 of
   them (25 and 2 in the sentiment script), and each slice is dumped to
   `data-chunks/<base>_chunk_<n>.json`.
2. **Batch summarising** (`functions/process_chunks.py`, duplicated in
   `sentiment.py`): every chunk file, in sorted order, is rendered into one
   prompt, sent to the chat service, and a non-empty answer is cleaned of
   markdown (`functions/clean_markdown.py`) and dumped to
   `analyzed-chunks/analyzed_<chunk file>`. A failing chunk is skipped.
3. **Compiling** (`compile_analyzed_files` in both scripts): the sorted
   `analyzed_` files are collected into one `summarized-reviews` document,
   skipping unreadable ones.
4. **Mapping** (`functions/map_reviews_to_journey.py`): the classifier's
   mapping of reviews to journey steps is validated record by record
   (required fields, date normalisation in place, step name, rating, strict
   date re-check), fail-fast, and persisted.
5. **Rating aggregation** (`functions/plot_average_ratings.py`): ratings 1..5
   become -2..2, are averaged per step and reordered by the taxonomy.

The model has one module per concern:

| file | module | what it holds |
|---|---|---|
| text.dfy | `Text` | decimal digits, `str(n)`, two-digit padding, `'='*50`, `"\n".join`, `str.strip` |
| listing.dfy | `Listing` | Python's `str` order, `sorted()`, prefix/suffix filters, `os.path.join`, latest file |
| wrappers.dfy | `Wrappers` | `Option`, `Result`, and `Present` (the values kept by a skip-on-failure loop) |
| json.dfy | `Json` | JSON values, Python truthiness, hashability, the missing-keys comprehension |
| dates.dfy | `DateFormat` | `convert_date_format` and the strict `%Y-%m-%d` re-check |
| mapper.dfy | `JourneyMapper` | the validation loop of `map_reviews_to_journey`, in place over an array |
| plot.dfy | `RatingPlot` | `validate_data` and the map / group-mean / reindex chain |
| chunker.dfy | `Chunker` | the chunk loop and chunk file names |
| markdown.dfy | `Markdown` | the six `re.sub` passes of `clean_markdown` and the final strip |
| summarizer.dfy | `BatchSummarizer` | review rendering and the `process_chunks` loop |
| aggregator.dfy | `Aggregator` | both variants of `compile_analyzed_files` |

The chat service, file reads and clocks are parameters: `load` gives the rows
of a chunk file (or `None` when reading it raises), `ask` the outcome of the
call made for a chunk file, `read` the parsed content of an analyzed file, and
`stamp`/`now` the formatted timestamps. Directory listings are sequences of
names. The classifier's reply in the mapper is the `Reply` datatype: empty
content, undecodable JSON, or a decoded object with or without the
`reviews_by_journey_step` list.

## Model

| member | source | states |
|---|---|---|
| Text.NatToDecimal | main.py:57 | `str(n)`: a non-empty run of digits without a leading zero whose value is n |
| Text.DecimalRoundTrip | main.py:57 | rendering the value of a canonical digit string gives the string back, so `str` is injective on chunk numbers |
| Text.Pad2RoundTrip | functions/map_reviews_to_journey.py:23 | `%m`/`%d` rendering with two digits inverts reading two digits |
| Text.Repeat | functions/process_chunks.py:55 | `'=' * 50`: exactly n copies of the character |
| Text.Join | functions/process_chunks.py:59 | `"\n".join`: the parts' total length plus one separator between each pair; empty for no parts |
| Text.Pad2 | functions/map_reviews_to_journey.py:23 | `%m`/`%d` rendering: two digits whose value is the number |
| Text.Strip | functions/clean_markdown.py:18 | `str.strip`: the result is a slice of the input, everything cut off on either side is whitespace, and the result neither starts nor ends with whitespace |
| Listing.LexLeTotal | functions/map_reviews_to_journey.py:40-41 | any two names are comparable in `str` order |
| Listing.LexLeAntisymmetric | functions/map_reviews_to_journey.py:40-41 | two names ordered both ways are equal |
| Listing.LexLeTransitive | functions/map_reviews_to_journey.py:40-41 | the `str` order is transitive |
| Listing.LexLtAtFirstDifference | main.py:57 | names that agree up to a position are ordered by the first differing character |
| Listing.Sort | main.py:91 | `sorted()`: the result is ordered and a permutation of the input |
| Listing.Insert | main.py:91 | inserting a name into an ordered listing keeps it ordered and adds exactly that name |
| Listing.SortedUnique | main.py:91 | two ordered permutations of the same names are equal, so `sorted()` does not depend on the listing order |
| Listing.FilterPrefix | main.py:91 | keeps exactly the names starting with the prefix, never more names than listed |
| Listing.FilterSuffix | functions/process_chunks.py:37 | keeps exactly the names ending with the suffix, never more names than listed |
| Listing.FilterPrefixKeepsAll | main.py:91 | a listing whose names all carry the prefix is unchanged by the filter |
| Listing.FilterSuffixKeepsAll | functions/process_chunks.py:37 | a listing whose names all carry the suffix is unchanged by the filter |
| Listing.PathJoin | main.py:58 | `os.path.join(dir, name)`: the directory, one separator, then the name |
| Listing.LatestIsGreatest | functions/map_reviews_to_journey.py:40-51 | the latest file is the greatest listed name with the prefix; none is found exactly when no name carries the prefix |
| Listing.LatestWithPrefix | functions/map_reviews_to_journey.py:40-51 | the last of the sorted prefixed names, or none found; its contract is `Listing.LatestIsGreatest` |
| Wrappers.Present | main.py:103-111 | the values a skip-on-failure loop keeps: exactly the successful ones, never more than the attempts |
| Wrappers.PresentStep | main.py:103-111 | one more iteration appends the value of that attempt if it succeeded, and nothing otherwise |
| Json.MissingKeys | functions/plot_average_ratings.py:19 | the listed keys absent from the object, empty exactly when all are present |
| DateFormat.DaysInMonth | functions/map_reviews_to_journey.py:23 | the Gregorian month length strptime checks: 28..31, and 29 only for February of a leap year |
| DateFormat.MonthNamesStartUpper | functions/map_reviews_to_journey.py:17-18 | twelve month names, each starting with a capital letter |
| DateFormat.MatchMonth | functions/map_reviews_to_journey.py:17-18 | `%B`: a month name found is a prefix of the text and its number is 1..12; no month is found only when no name is a prefix |
| DateFormat.LeadingNumber | functions/map_reviews_to_journey.py:17-20 | `%d`/`%m`: one or two leading digits, two when the second character is a digit |
| DateFormat.Year4 | functions/map_reviews_to_journey.py:17-20 | `%Y` reads exactly four digits |
| DateFormat.Checked | functions/map_reviews_to_journey.py:23 | a parsed (y, m, d) is kept exactly when it is a real calendar date |
| DateFormat.ParseMonthDayYear | functions/map_reviews_to_journey.py:17 | `%B %d, %Y` only yields valid calendar dates |
| DateFormat.ParseDayMonthYear | functions/map_reviews_to_journey.py:18 | `%d %B %Y` only yields valid calendar dates |
| DateFormat.ParseIsoDate | functions/map_reviews_to_journey.py:19 | `%Y-%m-%d` only yields valid calendar dates |
| DateFormat.ParseDaySlashMonthYear | functions/map_reviews_to_journey.py:20 | `%d/%m/%Y` only yields valid calendar dates |
| DateFormat.Parse | functions/map_reviews_to_journey.py:16-23 | every format only yields valid calendar dates |
| DateFormat.FirstParse | functions/map_reviews_to_journey.py:16-23 | the loop over the formats only yields valid calendar dates |
| DateFormat.FormatIso | functions/map_reviews_to_journey.py:23 | `strftime("%Y-%m-%d")`; its contracts are `DateFormat.IsoRoundTrip` and `DateFormat.FormatCanonical` (read back gives the date, canonical text is rebuilt), and `DateFormat.RecheckPasses` (ten-character results pass the re-check) |
| DateFormat.StrictIso | functions/map_reviews_to_journey.py:138-141 | the strict `%Y-%m-%d` re-check; its contracts are `DateFormat.RecheckPasses` and `DateFormat.ShortYearRejected` |
| DateFormat.FirstParseFirstMatch | functions/map_reviews_to_journey.py:16-25 | the first format that parses decides, and the search fails only when every format fails |
| DateFormat.ConvertDate | functions/map_reviews_to_journey.py:26-28 | the error message of a failed conversion contains the input string |
| DateFormat.ConvertDateFirstMatch | functions/map_reviews_to_journey.py:12-28 | conversion fails exactly when none of the four formats parses, and otherwise yields the `%Y-%m-%d` rendering of the first format's date |
| DateFormat.ConvertIdempotent | functions/map_reviews_to_journey.py:19-23 | a zero-padded valid `YYYY-MM-DD` string with a year of 1000..9999 is returned unchanged |
| DateFormat.IsoRoundTrip | functions/map_reviews_to_journey.py:19-23 | reading back the `%Y-%m-%d` rendering of a date with a four-digit year gives the date |
| DateFormat.ParseCanonical | functions/map_reviews_to_journey.py:19-23 | a zero-padded valid `YYYY-MM-DD` string is read by `%Y-%m-%d` as the date its digits spell |
| DateFormat.FormatCanonical | functions/map_reviews_to_journey.py:23 | rendering the date a zero-padded `YYYY-MM-DD` string spells gives the string back |
| DateFormat.FirstParseIsThird | functions/map_reviews_to_journey.py:16-21 | when the two month-name formats fail, an ISO date is read by the third format |
| DateFormat.FirstParseIsLast | functions/map_reviews_to_journey.py:16-21 | when the first three formats fail, the slash format decides |
| DateFormat.RecheckPasses | functions/map_reviews_to_journey.py:127-141 | a conversion result of ten characters always passes the strict `%Y-%m-%d` re-check |
| DateFormat.ScenarioMonthName | functions/map_reviews_to_journey.py:17 | "January 17, 2025" becomes "2025-01-17" |
| DateFormat.ReadMonthName | functions/map_reviews_to_journey.py:17 | `%B %d, %Y` reads "January 17, 2025" as 17 January 2025 |
| DateFormat.SlashedOnlyLast | functions/map_reviews_to_journey.py:16-20 | a dd/mm/yyyy string is rejected by the first three formats |
| DateFormat.SlashedConvert | functions/map_reviews_to_journey.py:20-23 | a valid dd/mm/yyyy date is converted by the last format to its ISO rendering |
| DateFormat.ScenarioDaySlash | functions/map_reviews_to_journey.py:20 | "17/01/2025" becomes "2025-01-17" |
| DateFormat.ReadDaySlash | functions/map_reviews_to_journey.py:16-23 | "17/01/2025" is converted to the rendering of 17 January 2025 |
| DateFormat.ScenarioAmbiguous | functions/map_reviews_to_journey.py:17-20 | "01/02/2025" is read day first and becomes "2025-02-01" |
| DateFormat.ReadAmbiguous | functions/map_reviews_to_journey.py:16-23 | "01/02/2025" is converted to the rendering of 1 February 2025 |
| DateFormat.WriteAmbiguous | functions/map_reviews_to_journey.py:23 | 1 February 2025 renders as "2025-02-01" |
| DateFormat.DashedOnlyIso | functions/map_reviews_to_journey.py:16-20 | a yyyy-mm-dd string is rejected by the three other formats |
| DateFormat.ScenarioImpossibleDay | functions/map_reviews_to_journey.py:23-28 | "2025-02-30" matches a format's shape but is not a date, so conversion fails |
| DateFormat.ReadImpossibleDay | functions/map_reviews_to_journey.py:19-23 | `%Y-%m-%d` rejects "2025-02-30" |
| DateFormat.ShortYearFailsRecheck | functions/map_reviews_to_journey.py:138-141 | "0999-01-01" converts to "999-01-01", which the strict re-check rejects |
| DateFormat.ReadShortYear | functions/map_reviews_to_journey.py:19-23 | "0999-01-01" is converted to the rendering of 1 January 999 |
| DateFormat.ShortYearRejected | functions/map_reviews_to_journey.py:138-141 | the strict re-check rejects "999-01-01" |
| JourneyMapper.StepNames | functions/map_reviews_to_journey.py:60-64 | a non-object journey, a missing or empty `journey_steps`, and malformed steps are each rejected; otherwise the set holds exactly the steps' `step_name` values |
| JourneyMapper.MissingFieldsInOrder | functions/map_reviews_to_journey.py:120-123 | the error lists exactly the absent fields, in the order step_name, rating, date |
| JourneyMapper.NormalizeDate | functions/map_reviews_to_journey.py:125-129 | succeeds exactly when the date is a string that converts, with the converted text; otherwise a date format error naming the date |
| JourneyMapper.CheckReview | functions/map_reviews_to_journey.py:119-141 | a passing review keeps its keys, has all three fields, a date the strict re-check accepts, a known step and a rating of 1..5; `JourneyMapper.CheckReviewAccepts` and `JourneyMapper.CheckReviewOrder` state when it passes and which error it reports |
| JourneyMapper.CheckReviewAccepts | functions/map_reviews_to_journey.py:118-141 | a record passes exactly when it is accepted (fields, convertible date, known step, integer rating 1..5, strict date), and only its date changes |
| JourneyMapper.CheckReviewOrder | functions/map_reviews_to_journey.py:119-141 | a failing record reports the first failing check in the order fields, date, step, rating, strict date; an unhashable step name (a list or object) raises `TypeError` at the step check, before any membership test |
| JourneyMapper.FirstFailure | functions/map_reviews_to_journey.py:118 | a successful loop yields one record per outcome |
| JourneyMapper.FirstFailureDecides | functions/map_reviews_to_journey.py:118-141 | the fail-fast loop succeeds exactly when every outcome does, with their values in order; otherwise it reports the first failure, all earlier outcomes having succeeded |
| JourneyMapper.Validate | functions/map_reviews_to_journey.py:118-141 | a successful validation keeps one record per review |
| JourneyMapper.AllPass | functions/map_reviews_to_journey.py:118-141 | when every record passes, the loop yields the checked records |
| JourneyMapper.StopsAt | functions/map_reviews_to_journey.py:118-141 | the first failing record's error is the loop's error |
| JourneyMapper.FirstFailingReviewDecides | functions/map_reviews_to_journey.py:118-141 | the loop succeeds exactly when every record passes; otherwise it reports the error of the first failing record, all earlier ones having passed |
| JourneyMapper.ValidatedReviews | functions/map_reviews_to_journey.py:118-141 | after a successful loop there are as many records as before, each with all fields, a known step, a valid rating, a strict ISO date and nothing else changed |
| JourneyMapper.CheckInPlace | functions/map_reviews_to_journey.py:119-141 | checking one array slot rewrites only that slot's date, exactly as the record check says |
| JourneyMapper.ValidateInPlace | functions/map_reviews_to_journey.py:118-141 | the in-place loop over the array leaves it holding the validated records, or reports the first error |
| JourneyMapper.MapReviewsToJourney | functions/map_reviews_to_journey.py:31-157 | the stage's method computes the stage's specification |
| JourneyMapper.MapReviews | functions/map_reviews_to_journey.py:31-157 | the stage as a function; its contracts are `JourneyMapper.MapReviewsErrorOrder` and `JourneyMapper.MappedReviewsPreserved` |
| JourneyMapper.MapReviewsErrorOrder | functions/map_reviews_to_journey.py:40-105 | missing summaries, then missing journey files, then a bad journey, then an empty reply are reported first, in that order |
| JourneyMapper.MappedReviewsPreserved | functions/map_reviews_to_journey.py:40-157 | a successful mapping names the latest summary and journey files and keeps every reply record, validated and in order |
| JourneyMapper.ReviewList | functions/map_reviews_to_journey.py:156 | the persisted list holds one object per mapped review, in order |
| JourneyMapper.PersistedAsWritten | functions/map_reviews_to_journey.py:150-157 | the document as dumped: `metadata` and `mapped_reviews` |
| JourneyMapper.Persisted | functions/map_reviews_to_journey.py:150-157 | the document under the key its consumer reads: `metadata` and `reviews_by_journey_step` |
| RatingPlot.ValidateData | functions/plot_average_ratings.py:15-21 | rejects a non-object, and otherwise reports exactly the missing required keys, passing only when none is missing |
| RatingPlot.RequiredSteps | functions/plot_average_ratings.py:41 | the taxonomy's step names, one per step, in order; an empty string or object yields no steps; any other non-list, or a step without `step_name`, is malformed |
| RatingPlot.ReviewRows | functions/plot_average_ratings.py:46 | one table row per review object, in order |
| RatingPlot.Columns | functions/plot_average_ratings.py:52 | the table's columns are the keys occurring in some row |
| RatingPlot.RatingMapIsShift | functions/plot_average_ratings.py:57 | the rating map is r - 3 on exactly 1..5, so map(6 - r) = -map(r) |
| RatingPlot.SignedRating | functions/plot_average_ratings.py:57-58 | a mapped rating lies in -2..2 |
| RatingPlot.GroupRatings | functions/plot_average_ratings.py:61-62 | a step's mapped ratings lie in -2..2 and come from at most all rows |
| RatingPlot.GroupRatingsMembers | functions/plot_average_ratings.py:58-62 | a value is in a step's group exactly when some review of that step has it as its mapped rating: nothing else is counted and none of those is missed |
| RatingPlot.UniformGroupRatings | functions/plot_average_ratings.py:57-62 | n reviews of one step rated 1..5 give n signed ratings whose sum is the star total less 3n |
| RatingPlot.UniformGroupMean | functions/plot_average_ratings.py:57-63 | for reviews of one step all rated 1..5, the group mean is the mean star rating less 3 |
| RatingPlot.SumBounds | functions/plot_average_ratings.py:62 | n ratings in -2..2 sum to between -2n and 2n |
| RatingPlot.MeanWithinScale | functions/plot_average_ratings.py:61-63 | every step's mean lies in [-2, 2] |
| RatingPlot.GroupMean | functions/plot_average_ratings.py:61-63 | a step's mean over its signed ratings, `NaN` when it has none; its contract is `RatingPlot.MeanWithinScale` |
| RatingPlot.Reindexed | functions/plot_average_ratings.py:66-68 | one row per required step; its contract is `RatingPlot.OneRowPerStep` |
| RatingPlot.FirstUnhashable | functions/plot_average_ratings.py:66-68 | the first taxonomy step name that reindex cannot hash, which is one of the required steps; none exactly when every required step is hashable |
| RatingPlot.FirstUnhashableStep | functions/plot_average_ratings.py:61 | the first `step_name` cell groupby cannot hash; none exactly when every `step_name` cell is hashable |
| RatingPlot.PlotData | functions/plot_average_ratings.py:33-68 | a successful run has passed both key checks, read a non-empty taxonomy and a review table with both required columns and only hashable step names, and a taxonomy of hashable step names, and has one row per taxonomy step. The unhashable-step error comes only after the column check. The unhashable-taxonomy error names a required step, and comes only after every review step name was hashable |
| RatingPlot.OneRowPerStep | functions/plot_average_ratings.py:61-68 | one result row per taxonomy step, in taxonomy order: the step's mean when it has reviews, 0 when it has none |
| RatingPlot.OtherRowKeepsRatings | functions/plot_average_ratings.py:61-62 | a review of another step does not change a step's ratings |
| RatingPlot.ForeignReviewIgnored | functions/plot_average_ratings.py:66-68 | a review whose step is not in the taxonomy does not change the result |
| RatingPlot.MissingColumnsInOrder | functions/plot_average_ratings.py:51-54 | the missing-columns error lists step_name then rating, each only when absent |
| RatingPlot.ErrorsBeforeAveraging | functions/plot_average_ratings.py:41-54 | an empty taxonomy, an empty review table and a missing rating column each raise before any averaging |
| RatingPlot.UnhashableStepRejected | functions/plot_average_ratings.py:61 | a review whose `step_name` is a list makes the run fail with the unhashable-step error instead of averaging |
| RatingPlot.ListStepScenario | functions/plot_average_ratings.py:61 | a review `{"step_name": ["a"], "rating": 5}` under a one-step taxonomy raises instead of plotting |
| RatingPlot.UnhashableRequiredStepRejected | functions/plot_average_ratings.py:66-68 | a taxonomy step whose `step_name` is an object or a list makes the run fail with the unhashable-taxonomy error, once the reviews have grouped; no 0 row is filled for it |
| RatingPlot.DictStepScenario | functions/plot_average_ratings.py:66-68 | the taxonomy `[{"step_name": "a"}, {"step_name": {}}]` with one review of step `a` raises instead of plotting |
| RatingPlot.EmptyJourneyStepsReported | functions/plot_average_ratings.py:41-43 | an empty string or object under `journey_steps` yields no steps and raises "No journey steps found" |
| RatingPlot.AsWrittenHandoffRejected | functions/plot_average_ratings.py:33 | the document the mapper dumps is always rejected for lacking `reviews_by_journey_step` |
| RatingPlot.HandoffAccepted | functions/plot_average_ratings.py:33-68 | a non-empty list of reviews that have every field and hashable step names, persisted under the corrected key, is accepted with a non-empty taxonomy of hashable step names and plotted with one row per step |
| RatingPlot.MappedOutputPlots | functions/plot_average_ratings.py:33-68 | every successful mapping with at least one review, persisted under the corrected key, is plotted against the same customer journey with one row per journey step |
| RatingPlot.MapperJourneyIsTaxonomy | functions/map_reviews_to_journey.py:60-64 | a customer journey the mapper accepts passes the plotter's key check and gives a non-empty taxonomy with one hashable step name per journey step |
| Chunker.TotalChunks | main.py:61 | `(L + S - 1) // S` is ceil(L / S): the fewest slices of S that hold L records, and 0 only for no records |
| Chunker.ChunkCount | main.py:65 | `min(NUM_CHUNKS, total_chunks)`: never more than the cap or the total, and equal to one of them |
| Chunker.Chunk | main.py:66-68 | chunk i is records[i·S .. min((i+1)·S, L)): non-empty, at most S long, shorter only at the end of the list |
| Chunker.Chunks | main.py:65-68 | the first n chunks, the i-th being chunk i |
| Chunker.OnlyLastShort | main.py:66-68 | every chunk but the last of all ceil(L/S) chunks is full |
| Chunker.ChunkName | main.py:57 | `base + "_chunk_" + str(n) + ".json"`, with the number's digits at a fixed position |
| Chunker.ChunkPath | main.py:52-58 | the chunk file lies in data-chunks under its chunk name |
| Chunker.ChunksCoverPrefix | main.py:65-68 | the first n chunks concatenated are exactly the first min(L, n·S) records, in order |
| Chunker.WrittenCoverPrefix | main.py:65-68 | whatever stops the loop, the chunks written cover exactly the first min(L, M·S) records |
| Chunker.WriteChunks | main.py:65-73 | the loop dumps min(M, ceil(L/S)) chunks, the i-th being chunk i under the name of chunk number i + 1 |
| Chunker.WrittenReviews | main.py:68-73 | the reviews dumped in each written file, in order |
| Chunker.ChunkReviews | main.py:65-73 | with 10 per chunk and at most 9 chunks: at most 9 files of 1..10 reviews that together are the first min(L, 90) reviews |
| Chunker.SentimentChunkReviews | sentiment.py:137-149 | with 25 per chunk and at most 2 chunks: at most 2 files of 1..25 reviews that together are the first min(L, 50) reviews |
| Chunker.SingleDigitNamesOrdered | main.py:57-70 | chunk names numbered 1..9 sort in chunk order |
| Chunker.TenthSortsBeforeSecond | main.py:57-70 | from the tenth chunk on, name order and chunk order differ |
| Chunker.ChunkNames | main.py:70 | the names of chunks 1..n in chunk order |
| Chunker.SortedNamesInChunkOrder | main.py:57-70 | with at most 9 chunks, sorting the chunk names in any listed order gives chunk order |
| Markdown.Run | functions/clean_markdown.py:8-11 | a greedy run of one character, bounded by a cap, that stops only at the cap, the end, or another character |
| Markdown.SpaceRun | functions/clean_markdown.py:8 | `\s*`: the longest whitespace run, newlines included |
| Markdown.FirstOnLine | functions/clean_markdown.py:9-11 | a lazy `.*?` followed by one of some characters: the nearest such character before any newline |
| Markdown.BoldClose | functions/clean_markdown.py:7 | the lazy bold body ends at the first `**` before any newline |
| Markdown.BoldAt | functions/clean_markdown.py:7 | a bold match starts with `**`, keeps its body and ends with `**`, the body holding no newline |
| Markdown.HeaderAt | functions/clean_markdown.py:8 | a header match exists exactly at a `#`, consumes only `#` and whitespace, and keeps nothing |
| Markdown.LinkClose | functions/clean_markdown.py:9 | the lazy link text runs without a newline to a `](` that a later `)` closes |
| Markdown.LinkAt | functions/clean_markdown.py:9 | a link match starts with `[`, keeps the link text up to `]`, and ends with `)` |
| Markdown.EmphasisFrom | functions/clean_markdown.py:10 | with an opening of the given width, the body is kept and the match ends with one or two markers |
| Markdown.EmphasisAt | functions/clean_markdown.py:10 | an emphasis match opens with one or two of `*`/`_`, keeps its body, and closes with a marker |
| Markdown.CodeFrom | functions/clean_markdown.py:11 | a code match of an opening width ends with a backtick and keeps nothing |
| Markdown.CodeAt | functions/clean_markdown.py:11 | a code match starts with a backtick and is deleted |
| Markdown.NewlinesAt | functions/clean_markdown.py:12 | a match exists exactly at three newlines, consumes the whole newline run and keeps two |
| Markdown.MatchAt | functions/clean_markdown.py:6-12 | a match of any pass lies inside the text, keeps a slice of its own span, and starts with the pass's opening character |
| Markdown.SubstituteFrom | functions/clean_markdown.py:17 | `re.sub` from a position never lengthens the remaining text |
| Markdown.Substitute | functions/clean_markdown.py:17 | one pass never lengthens the text |
| Markdown.CleanMarkdownProperties | functions/clean_markdown.py:6-18 | the cleaned text is no longer than the input, holds no `#`, no three newlines in a row, and no whitespace at either end |
| Markdown.CleanMarkdown | functions/clean_markdown.py:6-18 | the six passes in order, then strip; its contract is `Markdown.CleanMarkdownProperties` |
| Markdown.ApplyPasses | functions/clean_markdown.py:15-17 | the passes applied in list order; its contracts are `Markdown.PassesShorten` and `Markdown.ApplyPassesKeepsChars` |
| Markdown.PassesLeaveNoHash | functions/clean_markdown.py:8-12 | after the six passes no `#` is left |
| Markdown.PassesLeaveNoTriple | functions/clean_markdown.py:12 | after the six passes no three newlines in a row are left |
| Markdown.StripKeeps | functions/clean_markdown.py:18 | stripping adds no character and no triple newline |
| Markdown.SubstituteKeepsChars | functions/clean_markdown.py:7-12 | a pass only copies characters already in the text |
| Markdown.PassesShorten | functions/clean_markdown.py:15-17 | any sequence of passes never lengthens the text |
| Markdown.ApplyPassesKeepsChars | functions/clean_markdown.py:15-17 | later passes add no character that an earlier stage did not hold |
| Markdown.HeaderLeavesNoHash | functions/clean_markdown.py:8 | the header pass deletes every `#` |
| Markdown.NewlinesLeavesNoTriple | functions/clean_markdown.py:12 | the newline pass leaves no three newlines in a row |
| Markdown.PlainUnchanged | functions/clean_markdown.py:7-12 | a pass changes nothing in text without markup characters or triple newlines |
| Markdown.PlainThroughPasses | functions/clean_markdown.py:15-17 | such text passes all six passes unchanged |
| Markdown.PlainTextOnlyStripped | functions/clean_markdown.py:6-18 | cleaning such text only strips it |
| BatchSummarizer.Rendered | functions/process_chunks.py:49-57 | one rendered review per row, in row order |
| BatchSummarizer.RenderReview | functions/process_chunks.py:50-56 | the per-review template; its contracts are `BatchSummarizer.RenderLines` and `BatchSummarizer.RenderedRowsDiffer` |
| BatchSummarizer.RenderRows | functions/process_chunks.py:48-57 | the rendering loop appends exactly the rendered rows, in order |
| BatchSummarizer.ChunkText | functions/process_chunks.py:59 | `"\n".join` of the rendered reviews; its contracts are `BatchSummarizer.ChunkTextFirst`, `BatchSummarizer.EmptyPromptOnlyForEmptyChunk` and `BatchSummarizer.ChunkTextDeterminesRows` |
| BatchSummarizer.RenderLines | functions/process_chunks.py:50-56 | a rendered review is its four labelled lines, each followed by a newline, then the rule of 50 `=` |
| BatchSummarizer.RenderedRowsDiffer | functions/process_chunks.py:50-56 | for rows whose cells hold no newline, a rendering followed by any text can equal another's only when the rows and the texts are equal |
| BatchSummarizer.ChunkTextFirst | functions/process_chunks.py:59 | the chunk text is the first rendered review, then a newline and the rest when there is more |
| BatchSummarizer.EmptyPromptOnlyForEmptyChunk | functions/process_chunks.py:48-59 | the prompt is empty exactly when the chunk has no rows |
| BatchSummarizer.ChunkTextDeterminesRows | functions/process_chunks.py:48-59 | for rows without newlines in their cells, the prompt determines the rows: rendering and joining lose nothing |
| BatchSummarizer.LinesDetermineRow | functions/process_chunks.py:50-53 | the four labelled lines determine the row |
| BatchSummarizer.FirstRowsAgree | functions/process_chunks.py:50-59 | for rows without newlines in their cells, equal chunk texts have the same first row and equal texts for the remaining rows |
| BatchSummarizer.UsableContent | functions/process_chunks.py:72 | an answer is kept exactly when there is a first choice whose content is non-empty |
| BatchSummarizer.ChunkFiles | functions/process_chunks.py:37 | the `.json` names of the listing, sorted |
| BatchSummarizer.PromptOf | functions/process_chunks.py:39-68 | the prompt sent for one file, none when it does not load; its contract is `BatchSummarizer.PromptsForLoadedFiles` |
| BatchSummarizer.AnalysisOf | functions/process_chunks.py:68-84 | what one file writes; its contract is `BatchSummarizer.AnalysisOfWritten` |
| BatchSummarizer.Prompts | functions/process_chunks.py:39-68 | the prompts of the files, in order; its contract is `BatchSummarizer.PromptsForLoadedFiles` |
| BatchSummarizer.Analyses | functions/process_chunks.py:39-88 | the analyses of the files, in order; its contracts are `BatchSummarizer.AnalysesAreIndependent` and `BatchSummarizer.AnalysesInFileOrder` |
| BatchSummarizer.ProcessChunk | functions/process_chunks.py:40-88 | one iteration sends the chunk's prompt if the file loads and writes its analysis if the answer is usable |
| BatchSummarizer.ProcessChunks | functions/process_chunks.py:35-88 | the loop sends the prompts and writes the analyses of the sorted chunk files, skipping failures and going on |
| BatchSummarizer.AnalysisOfWritten | functions/process_chunks.py:72-84 | an analysis is written exactly when the file loads and the answer is usable; it is named `analyzed_` + chunk file and holds the cleaned answer, free of `#` and triple newlines and no longer than the answer |
| BatchSummarizer.AnalysesAreIndependent | functions/process_chunks.py:39-88 | the analyses written are exactly those of the files that succeed, each chunk on its own; a failure does not stop the others |
| BatchSummarizer.PromptsForLoadedFiles | functions/process_chunks.py:39-68 | a prompt is sent exactly for each listed file that loads, carrying that file's chunk text |
| BatchSummarizer.AnalysisNamesFromFiles | functions/process_chunks.py:80 | every analysis is named after a chunk file |
| BatchSummarizer.AnalysesInFileOrder | functions/process_chunks.py:37-80 | the analyses are written in sorted name order |
| BatchSummarizer.PresentNamesSorted | functions/process_chunks.py:37-80 | the names of the analyses kept from sorted chunk files are sorted |
| BatchSummarizer.ChunksProcessedInOrder | functions/process_chunks.py:37 | with at most 9 chunks from the chunker, chunks are processed in chunk order |
| Aggregator.ResponseOf | main.py:105-111 | a file contributes exactly when it loads as an object with a `response`, and contributes that value |
| Aggregator.EntryOf | main.py:105-109 | `{"analysis": response}` for a readable file; its contract is `Aggregator.EntryOfDumped` |
| Aggregator.SentimentEntryOf | sentiment.py:241-248 | `{"file": name, "analysis": response}` for a readable file; its contract is `Aggregator.SentimentEntriesNameFiles` |
| Aggregator.Entries | main.py:103-111 | the entries of the readable files, in order; its contracts are `Aggregator.EntriesArePerFile`, `Aggregator.AllReadableAllListed` and `Aggregator.SkippedFileShortens` |
| Aggregator.AnalyzedFiles | main.py:91 | the `analyzed_` names of the listing, sorted, one per listed match |
| Aggregator.CollectAnalyses | main.py:103-111 | the loop appends one entry per readable file, in order, and skips the rest |
| Aggregator.CompileAnalyzedFiles | main.py:82-116 | the output goes to summarized-reviews/summarized_reviews_<stamp>.json and holds only the collected `analyses` |
| Aggregator.SentimentCompileAnalyzedFiles | sentiment.py:219-255 | the output goes to summarized-reviews/sentiment_analysis_<stamp>.json and holds the metadata and the collected `analyses` |
| Aggregator.EntriesArePerFile | main.py:103-111 | there are never more entries than files, and each entry is that of a listed file that succeeded |
| Aggregator.AllReadableAllListed | main.py:103-111 | when every file is readable, there is one entry per file, in file order |
| Aggregator.SkippedFileShortens | main.py:110-111 | a skipped file leaves fewer entries than files |
| Aggregator.TotalFilesCountsSkipped | sentiment.py:228-250 | when an `analyzed_` file is skipped, `total_files` exceeds the number of analyses |
| Aggregator.SentimentEntriesNameFiles | sentiment.py:241-248 | each sentiment entry names a listed file and holds that file's `response` |
| Aggregator.ListedNamesAreAnalyzedFiles | main.py:91 | a listing of sorted `analyzed_` names, in any order, yields exactly those names |
| Aggregator.CompiledFromWritten | main.py:91-109 | analyses listed in sorted order and dumped with a `response` are compiled one entry each, in that order |
| Aggregator.EntryOfDumped | main.py:105-109 | a file dumped with a `response` contributes an `analysis` entry holding that response |
| Aggregator.CompiledInProcessingOrder | main.py:91-109 | the compiled entries are the summariser's analyses, one each, in the order it wrote them |
| Aggregator.MapperFindsCompiledFile | main.py:114 | the compiled file lands where the mapper looks, with its prefix, so the mapper finds a summary |

## Left out

- File and directory I/O, `json.load`/`json.dump`, `makedirs` and printing are not modelled. Reads are oracle parameters, listings are sequences of names, and writes are returned values.
- The OpenAI calls are foreign, non-deterministic services. The summariser's call is the `ask` oracle. The mapper's call is the `Reply` value. `functions/generate_journey_steps.py` is not part of this model: it wraps one API call, and its latest-file rule is `Listing.LatestWithPrefix`.
- `datetime.now()` timestamps are parameters (`stamp`, `now`). The `"timestamp"` that `sentiment.py`'s `process_chunks` adds to each analyzed file is not modelled, because the compiler reads only `response`. The mapper's metadata timestamp is not modelled either.
- `asyncio` is not modelled: the stages run strictly in sequence.
- `get_input_file`, `initialize_directories`, `load_json_data`, the module-level bootstrap code and `get_latest_file` by creation time are not part of this model.
- Plotly rendering, writing and display are not part of this model.
- pandas floating point is replaced by exact rationals (`real`). A group whose ratings all fall outside 1..5 averages to an explicit `NaN` value.
- RatingPlot.ReviewRows: `json_normalize` is modelled only on a list of objects, each object becoming one row with its own keys as columns. A value that is not a list of objects is reported as malformed, although `json_normalize` accepts a single object as one record. Nested objects are not flattened: for `{"rating": {"value": 5}}` pandas makes a `rating.value` column and the script raises "Missing required columns: ['rating']", while the model keeps a `rating` column whose value maps to no signed rating, so its group averages to `NaN`.
- BatchSummarizer.RenderReview: pandas' conversion of a cell to text is not modelled. A row's four cells are given as strings, and a chunk whose table lacks one of the four columns (a `KeyError`) is a chunk that `load` fails on.
- BatchSummarizer.ProcessChunks: the call's outcome is keyed by chunk file rather than by the prompt text, because the service's answer is not a function the model can state.
- DateFormat.ConvertDate: the strptime grammar is simplified. Month names must match in their usual capitalisation, while strptime ignores case. Every format space matches exactly one space, while strptime accepts any whitespace run. A space-padded day such as " 7" is not accepted. Only ASCII digits are digits, while strptime's `\d` also accepts other Unicode decimal digits.
- JourneyMapper.CheckReview: Python's `bool` is an `int`, so `True` passes the rating check as 1. The model treats a JSON boolean as not an integer. Likewise, `True == 1` inside the set of step names is not modelled: step names compare as JSON values. The same holds for `RatingPlot`: groupby and reindex compare step names with Python equality, so `True`, `1` and `1.0` fall into one group there, while the model keeps them apart.
- RatingPlot.PlotData: any taxonomy step name that is an object or a list fails with the unhashable-taxonomy error. pandas may take another path when every taxonomy step name is a list: reindex then reads the labels as a MultiIndex, and gives no row labelled with a list. The model does not distinguish that path from the error.
- JourneyMapper.MapReviews: a `reviews_by_journey_step` value that is not a list (iterating a dict's keys, a string's characters) is not modelled. The reply's list is a sequence of records.
- JourneyMapper.Reply: a decoded reply that is not a JSON object (a list, a string, a number) is not modelled. The `in` test at functions/map_reviews_to_journey.py:114 then checks list membership or a substring, or raises `TypeError`, and the model has no case for it.
- RatingPlot.SignedRating: a rating cell that is not an integer counts as unmapped, so it becomes `NaN`. A list-valued rating cell, which pandas' dictionary lookup in `map` may reject with `TypeError`, is treated the same way.
- Json.Value has no floating-point numbers. A rating such as `4.0` fails the mapper's `isinstance(..., int)` check, but pandas would map it as 4. Neither behaviour is modelled.
- DateFormat.FormatIso, DateFormat.ShortYearFailsRecheck: `strftime("%Y")` is modelled as glibc renders it for CPython releases that pass `%Y` to the C library unchanged: a year below 1000 has no zero padding, so 999 becomes "999". Recent CPython releases pad `%Y` to four digits. There "0999-01-01" converts to itself and passes the strict re-check, so `ShortYearFailsRecheck` describes only the unpadded platforms.
- Directory listings are assumed to hold each name once, as a real directory does. The ordering lemmas state permutations through multisets, and `Listing.SortedUnique` relies on them.
- `sentiment.py`'s `clean_markdown` (lines 24-39) is the same six passes and strip as `functions/clean_markdown.py`, so `Markdown.CleanMarkdown` models both. `sentiment.py`'s `process_chunks` (lines 154-211) differs from `functions/process_chunks.py` in its printing, in the `"timestamp"` it adds to each analyzed file, and in its `SYSTEM_PROMPT` (sentiment.py:21 against functions/process_chunks.py:15-27). The system prompt only shapes the service's answer, which the `ask` oracle stands for, so `BatchSummarizer.ProcessChunks` models both.
- Markdown.CleanMarkdown, Markdown.ApplyPasses, RatingPlot.Reindexed, RatingPlot.GroupMean, JourneyMapper.MapReviews, Listing.LatestWithPrefix, DateFormat.FormatIso, DateFormat.StrictIso, BatchSummarizer.RenderReview, BatchSummarizer.ChunkText, BatchSummarizer.PromptOf, BatchSummarizer.AnalysisOf, BatchSummarizer.Prompts, BatchSummarizer.Analyses, Aggregator.EntryOf, Aggregator.SentimentEntryOf, Aggregator.Entries: these carry no contract of their own. Their properties are the lemmas named in their "## Model" rows.

## Findings

| source | as written | input that shows it | evidently intended | confidence | as-written member | corrected member |
|---|---|---|---|---|---|---|
| functions/map_reviews_to_journey.py:156 | the mapper dumps the validated reviews under the key `mapped_reviews`, while `plot_average_ratings` requires `reviews_by_journey_step` (functions/plot_average_ratings.py:33,46) | any successful mapping: the plotter's `validate_data` raises "Missing required keys: ['reviews_by_journey_step']" | the mapped reviews are persisted under `reviews_by_journey_step`, the key the mapper itself validates and the plotter reads | high (not executed) | JourneyMapper.PersistedAsWritten, RatingPlot.AsWrittenHandoffRejected | JourneyMapper.Persisted, RatingPlot.HandoffAccepted, RatingPlot.MappedOutputPlots |
