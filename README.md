# Vector-index benchmark scripts, modelled in Dafny

This project models the logic of three benchmark scripts for a SQL Server
database that holds 100k wiki pages and texts with vector embeddings.

- **Recall benchmark** (`recall.py`, module `Recall` in `recall.dfy`).
  For each rank cutoff K and each query template, the script runs an exact
  ("ground truth") query and a vector-index query. It keeps the returned
  primary keys as sets and records recall and acceleration; a template
  that raises is skipped. The six templates are modelled by structure:
  table, probes (full scan or vector search with its TOP_N), exclusion
  sub-query, and the returned window (TOP k, or OFFSET/FETCH).
- **Latency batch runner** (`latency.py`, module `Latency` in
  `latency.dfy`). A batch file is split on a delimiter string. Each segment
  is cleaned of `GO` lines and trimmed, and empty segments are skipped.
  Each remaining segment runs once and gives a success or failure record
  that carries its 1-based position. The row count comes from the first
  result set that has column metadata.
- **Bulk loader** (`fast_100k.py`, module `Loader` in `loader.dfy`).
  Staging frames are cut to `ROWS_TO_LOAD` rows and numbered (`rn`).
  Sibling frames are inner-joined on `rn`. Each row becomes a fixed-arity
  insert tuple, with nulls replaced by defaults. The staging tables are
  dropped only after all three loads have gone through. The database is
  the class `Loader.Warehouse`.

Supporting modules: `Wrappers` (`Option`, `Min`, `Take`) and `Strings`.
`Strings` holds Python's `str.split` and `str.strip`, which the batch
runner uses, and `sep.join`, which the model uses to put split lines back
together. Whitespace is Python's whitespace on `str`: the characters that
`str.isspace`, `str.strip()` and the regular-expression class `\s` accept,
Unicode ones included.

The database is always an input. In the recall model, `execute` maps a
template to the rows and latencies of both queries, or to `Raised`. In
the latency model, `execute` maps a statement, given by its 1-based
position in the batch and its text, to its result sets and latency, or
to an error message. The same text at two positions may behave
differently, as it can on one connection whose state changes. In the loader, the staging rows are
data, and boolean parameters say whether the connection opens and
whether the engine accepts each batch of inserts.

## Model

| member | source | states |
|---|---|---|
| `Wrappers.Take` | latency.py:95 | `s[:n]` (and `head(n)`) keeps the first min(len(s), n) elements of `s`, as a prefix |
| `Strings.Strip` | latency.py:21 | the result neither starts nor ends with Python whitespace (the full `str.isspace` set, including `\x1c`–`\x1f` and the Unicode spaces), and is empty exactly when the input is blank |
| `Strings.StripIsInfix` | latency.py:21 | strip removes only whitespace, and only from the two ends |
| `Strings.Split` | latency.py:48 | splitting always gives at least one piece |
| `Strings.SplitSepFree` | latency.py:48 | no piece of a split holds the separator anywhere: every occurrence was cut out |
| `Strings.SplitFirstCut` | latency.py:48 | the first cut falls where the separator first begins: it occurs nowhere earlier, and, when there is more than one piece, it occurs right after the first piece |
| `Strings.SplitAtFirst` | latency.py:48 | every cut is at the leftmost remaining occurrence: when the separator first occurs at i, the pieces are the text before i followed by the pieces of the text after that occurrence |
| `Strings.JoinSplit` | latency.py:48 | splitting on the delimiter loses nothing: joining the pieces with it gives the text back |
| `Strings.SplitJoin` | latency.py:20 | joining newline-free lines with `\n` and splitting again gives the same lines |
| `Strings.SplitCharFree` | latency.py:20 | no piece of a split on a character contains that character |
| `Strings.JoinBlank` | latency.py:21 | blank pieces joined by a blank separator give blank text |
| `Recall.IdSet` | recall.py:140-146 | the set holds the id of every returned row and nothing else |
| `Recall.IdSetSize` | recall.py:140-146 | the set has at most as many ids as there were rows, and exactly as many when no id repeats |
| `Recall.CalculateRecall` | recall.py:28-31 | recall lies in [0, 100] and is 0 for an empty ground truth, whatever the index returned |
| `Recall.RecallOverlap` | recall.py:30-31 | for a non-empty ground truth, recall × len(gt) = 100 × len(gt ∩ idx) |
| `Recall.RecallFullIff` | recall.py:30-31 | for a non-empty ground truth, recall is 100 if and only if every ground-truth id is in the index result |
| `Recall.RecallMonotone` | recall.py:30-31 | extra index ids never lower recall |
| `Recall.RecallIgnoresOrder` | recall.py:140-146 | reordering the rows of either query leaves recall unchanged |
| `Recall.SameIdsSameRecall` | recall.py:140-146 | two results with the same ids, in any order and with any repetitions on either side, give the same recall |
| `Recall.Acceleration` | recall.py:151 | acceleration × idx_ms = gt_ms when idx_ms > 0, and acceleration is exactly 0 otherwise |
| `Recall.AccelerationAboveOne` | recall.py:151 | acceleration exceeds 1 exactly when the index query was faster |
| `Recall.PageOffset` | recall.py:123 | the offset is never negative, and offset + 10 = max(k, 10) |
| `Recall.Templates` | recall.py:56-131 | there are six templates, and Q1 comes first |
| `Recall.TemplatesFollowPolicy` | recall.py:56-131 | every ground-truth query uses full scans only and returns TOP k, except IQ1, which returns the page ending at rank k. Every index probe is a vector search with TOP_N k, except NQ18's primary search, which uses 2k. Both queries of a template use the same table and vectors, and IQ1 uses the same page on both |
| `Recall.TemplateSpecifics` | recall.py:107-128 | IQ1 uses OFFSET `PageOffset(k)` FETCH 10 on both paths. NQ18's index path has one primary search with TOP_N 2k and excludes a TOP_N k search on the second vector |
| `Recall.Contribution` | recall.py:136-166 | one template run gives no record if it raised. Otherwise it gives exactly one record, carrying its name and K, the recall of the ground-truth ids against the index ids (in [0, 100]), the index latency and the ground-truth latency in their own fields, and the acceleration ground-truth latency / index latency |
| `Recall.TemplateRecords` | recall.py:133-166 | one cutoff gives at most one record per template |
| `Recall.RecordsInRange` | recall.py:150-162 | every record of a cutoff carries that K and a recall in [0, 100] |
| `Recall.TemplateRecordsAppend` | recall.py:133-166 | the records of two template lists run one after the other are the concatenation of their records |
| `Recall.RaisingAlone` | recall.py:164-166 | a raising template on its own gives no record |
| `Recall.RaisingTemplateSkipped` | recall.py:164-166 | a raising template adds nothing, and the templates after it still contribute their records |
| `Recall.OneRecordPerCompletedTemplate` | recall.py:133-162 | when nothing raises, there is one record per template, in order, with that template's name and K |
| `Recall.RunTemplates` | recall.py:133-166 | the inner loop yields exactly `TemplateRecords` of the templates it runs |
| `Recall.Benchmark` | recall.py:52-166 | the outer loop yields the records of each cutoff in turn |
| `Recall.RunBenchmark` | recall.py:52-166 | with the `[:1]` slices, there is at most one record. There is none exactly when Q1 at K = 10 raised; otherwise the record is Q1 at K = 10 with a recall in [0, 100]. The result is exactly what Q1 at K = 10 contributes, with every field as in `Contribution` |
| `Latency.GoLinePattern` | latency.py:20 | `IsGoLine` holds for a line exactly when `^\s*GO\s*$` matches it case-insensitively: whitespace, the word `GO` in any case, whitespace |
| `Latency.CleanSql` | latency.py:16-21 | the cleaned statement has no leading or trailing whitespace |
| `Latency.CleanedLines` | latency.py:20 | cleaning (`DropGoLines` over the lines) keeps the line structure and empties every `GO`-only line (any case, optional whitespace). No `GO` line is left, and lines with `GO` beside other text are kept |
| `Latency.GoOnlySegmentIsEmpty` | latency.py:20-21 | a segment of only blank and `GO` lines cleans to nothing |
| `Latency.StatementSurvives` | latency.py:20-21 | a segment with a non-whitespace character on a non-`GO` line does not clean to nothing |
| `Latency.RowsReturned` | latency.py:63-73 | the row count is the size of the first result set with column metadata, or 0 when none has any |
| `Latency.ScanResultSets` | latency.py:63-73 | the forward scan over result sets computes that row count |
| `Latency.SegmentRecords` | latency.py:54-96 | an empty cleaned statement gives no record. Otherwise it gives exactly one record, carrying the segment's position |
| `Latency.SegmentRecordFields` | latency.py:80-96 | a failure has latency 0, 0 rows, status Failed and a message of at most 200 characters. A success has the measured latency, the scanned row count and no message |
| `Latency.RunStatement` | latency.py:59-96 | running one non-empty statement builds that segment's record |
| `Latency.BatchRecords` | latency.py:53-96 | the batch gives at most one record per segment |
| `Latency.BatchRecordsPositions` | latency.py:53-96 | every record names a valid 1-based position and is the record of the segment at that position |
| `Latency.BatchRecordsIncreasing` | latency.py:53-91 | query ids strictly increase along the records |
| `Latency.BatchRecordsCoverage` | latency.py:53-55 | position p has a record if and only if its segment does not clean to nothing, so a failing statement never stops the segments after it |
| `Latency.RunSegments` | latency.py:53-96 | the loop over the segments yields exactly `BatchRecords` of the cleaned segments (`CleanAll`: segment i cleaned is `CleanSql` of segment i) |
| `Latency.RunBenchmarks` | latency.py:23-55 | a failed setup returns before the file is read, and a missing file returns before any statement runs. Otherwise the records are those of the file split on the delimiter |
| `Loader.Merge` | fast_100k.py:20 | an inner join with an empty side is empty. `MergeNumbered` gives the whole result for numbered frames |
| `Loader.MatchesConsecutive` | fast_100k.py:20 | against ordinals 1..n, a row has exactly one match if its own `rn` is in range, and none otherwise |
| `Loader.MergeNumbered` | fast_100k.py:17-20 | the inner join of two frames numbered by `Number` (row i gets `rn = i + 1`) on `rn` is the numbering of `Zip` of the frames: it pairs them row by row and keeps as many rows as the shorter frame |
| `Loader.PageFrameRows` | fast_100k.py:17-20 | the joined page frame has min(100000, len(page), len(extra), len(embedding)) rows, and row i combines row i of each staging frame |
| `Loader.TextFrameRows` | fast_100k.py:41-43 | the joined text frame has min(100000, len(text), len(embedding)) rows, and row i pairs row i of each frame |
| `Loader.PageTuple` | fast_100k.py:23-30 | a page row has a 9-field tuple exactly when its page id is present |
| `Loader.TextTuple` | fast_100k.py:46-48 | a text row has a 4-field tuple exactly when its id is present |
| `Loader.RevisionTuple` | fast_100k.py:62-69 | a revision has a 7-field tuple exactly when its revision id and page id are present |
| `Loader.PageTupleFields` | fast_100k.py:24-30 | slots counted from 0: the page id fills slot 0; a missing title becomes '' in slot 1; slots 2 and 3 are 0; the touched value, or NULL, fills both timestamp slots 4 and 5; slot 6 is NULL; a missing length becomes 0 in slot 7; a missing embedding becomes NULL in slot 8 (`TextOrNull`). Every value present in the row reaches its slot |
| `Loader.TextTupleFields` | fast_100k.py:47-48 | a missing text becomes '' and the encoding is always 'utf-8' |
| `Loader.RevisionTupleFields` | fast_100k.py:63-69 | slots counted from 0: the revision id fills slots 0 and 2 and the page id slot 1. A missing timestamp (slot 3) or actor (slot 5) becomes NULL and a present one is kept (`TextOrNull`, `IntOrNull`), a missing minor-edit flag becomes 0 in slot 4, and slot 6 is NULL |
| `Loader.ShapeAll` | fast_100k.py:22-30 | tuples are built exactly when every row can be shaped. There is then one tuple per row, in order |
| `Loader.BuildInserts` | fast_100k.py:45-48 | the `iterrows` loop builds exactly `ShapeAll` of its rows, stopping at the first row that raises |
| `Loader.ShapeNoneExtends` | fast_100k.py:22-30 | a row that cannot be shaped makes the whole load fail |
| `Loader.PageInsertsRows` | fast_100k.py:17-30 | there is one page tuple per joined row, in order, built from row i of each page staging frame |
| `Loader.TextInsertsRows` | fast_100k.py:41-48 | there is one text tuple per joined row, in order |
| `Loader.RevisionInsertsRows` | fast_100k.py:59-69 | there is one revision tuple per staged revision among the first 100000, in order |
| `Loader.Warehouse.ProcessPageTable` | fast_100k.py:15-37 | the page load succeeds exactly when the staging tables exist, every joined row has a page id and the engine accepts the batch. It then appends the tuples to `dbo.page`; otherwise nothing changes. No other table changes |
| `Loader.Warehouse.ProcessTextTable` | fast_100k.py:39-55 | the same, for `dbo.text` |
| `Loader.Warehouse.ProcessRevisionTable` | fast_100k.py:57-76 | the same, for `dbo.revision`, with no join |
| `Loader.Warehouse.Cleanup` | fast_100k.py:78-88 | the staging tables are gone and the destination tables are unchanged |
| `Loader.Warehouse.LoadAll` | fast_100k.py:90-102 | the staging tables are dropped if and only if the run reports success, which needs all three loads to go through. Once connected, the page step is reported failed exactly when the page load fails. The text step is reported exactly when the page load went through and the text load fails, and the revision step likewise. After a failure the staging tables are left in place, the rows appended by earlier loads stay, and no later load has run |

## Left out

- Database access is not modelled. This covers connections, `cursor.execute`, `executemany`, commits and `DROP TABLE`. Their results are parameters (`execute`, the staging rows, and the connection and acceptance flags).
- The meaning of the SQL text is not modelled. This covers `VECTOR_DISTANCE`, `VECTOR_SEARCH`, `ORDER BY NEWID()` and `ROW_NUMBER()`. Templates are modelled by structure, and `rn` is taken as 1..n in the order the rows arrive.
- `get_vectors` and `get_page_vector` (recall.py:15-26) are not modelled. The random query vectors are the three symbols `Text1`, `Text2` and `PageVector`.
- In recall.py:39-44, a failure to enable the preview features is printed and ignored. The model has no state that it could affect.
- Wall-clock timing is not modelled: latencies are `real` inputs. `round(..., 2)` is treated as presentation and not modelled either, and floating-point arithmetic is modelled with exact reals.
- Printing and CSV writing (`to_csv`) are left out.
- `Latency.CleanSql`: cleaning is modelled line by line, which differs from the regular expression in one case. In the source, the `\s*` in `(?m)^\s*GO\s*$` can also match newlines, so it may remove blank lines next to a `GO` line. The model keeps those lines, and the difference is whitespace-only.
- `Latency.RunBenchmarks`: only a missing file is modelled as a read failure. Other I/O errors while reading would propagate out of the function in the source.
- The staging table schemas are not part of this model. The model assumes that `stage_page` holds id, title and touched, `stage_page_extra` holds the length, and each embedding table holds `embedding_json`. The column-name suffixes pandas adds when merging frames with clashing columns are not modelled.
- pandas dtype conversions are not modelled. A NULL in a numeric column makes it float, and `int(NaN)` raises. A missing page, text or revision id, or a missing revision page id, is therefore modelled as the load failing. Non-id integers (actor, length, minor flag) are modelled as integers, not floats.
- A staging table that is missing when read is modelled as that load failing. `Loader.Warehouse.Cleanup` drops the six staging tables as one step: a `DROP TABLE` that fails part-way through cleanup is not modelled.
- A batch the engine rejects leaves the destination table unchanged, because the failed transaction is never committed. Rows committed by earlier loads stay.
- The plotting scripts (plot_graphs.py, rec_plots.py and the files under plots/) are not part of this model; they only draw charts. postgres/run_all.py is not part of this model either; it only runs SQL files against another database.
