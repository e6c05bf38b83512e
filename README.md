# Open data valuation: a verified model

The open data valuation tool is a single rating page. A user uploads a table and gets
a quality overview of it. They pick a use case and rate six value dimensions
(Economic, Social, Environmental, Cultural, Policy Alignment, Data Quality) from 0 to 5
stars, and may weight each dimension with a slider from 0.0 to 1.0. The page then
computes a valuation score in percent and the top dimension(s), and saves the
result once per submission.

This project models that core in Dafny, in five modules:

- `DatasetQuality` (`dataset_quality.dfy`) models the quality report of a table:
  rows, columns, missing cells, missing ratio, duplicate rows and empty columns. The
  report is a pure function over a table of cells.
- `Valuation` (`valuation.dfy`) covers:
  - the star-only and weighted scores with their tie-inclusive top dimensions;
  - the record handed to the store;
  - the rule that hides tags when the top score is zero;
  - the star strings of the summary.
- `SessionKeys` (`session_keys.dfy`) covers:
  - the widget keys the page builds (`rating_...`, `weight_...`);
  - the prefix test by which stale widget state is cleared;
  - the dataset signature.
- `SaveGuard` (`save_guard.dfy`) covers:
  - the guard that keeps page reruns from saving a submission twice;
  - the store's insert-if-absent rule;
  - what happens over any series of reruns with one submission id.
- `SessionState` (`session.dfy`) holds the page's session as a class:
  - fixed-name entries are fields;
  - widget-keyed entries are a `map`;
  - the reset, confirm, calculate and save callbacks are methods that update them.
  - It also has a class for the valuation store.

Modelling choices:

- **Stars** are integers. **Weights** are integer tenths, so `0.5` is `5`. Scores are
  exact reals, and weighted values are `stars * tenths`, so ties are exact.
- **The weighted score with every weight at 0.0**: `total_score / max_possible`
  (app.py:383) has no guard, so it raises `ZeroDivisionError`. The model returns that
  outcome explicitly and does not invent a score.
- **Tags** are a set, because the summary table is sorted before tags are read and
  that sort does not fix the order of ties.
- **A table is "empty"** when it has no rows or no columns. In that case every field
  of the quality report is 0, including the column count of a table that has
  headers but no rows.
- **Whitespace** (`\s`) means the characters Python's `str.isspace` accepts.
- **Lower-casing in keys** is ASCII lower-casing.
- **The MD5 digest** of an uploaded file is an input, and so are the UUID of a
  submission, the timestamp and whether the store accepts an insert.

## Model

| member | source | states |
|---|---|---|
| DatasetQuality.IsEmpty | src/dataset_quality.py:11 | `df.empty`: true exactly when the table has no cells, i.e. no rows or no columns |
| DatasetQuality.IsSpace | src/dataset_quality.py:34 | The characters `\s` matches (Python's `str.isspace`) |
| DatasetQuality.IsWhitespaceText | src/dataset_quality.py:34 | Text matching `^\s*$`: every character is whitespace; the empty string matches |
| DatasetQuality.IsBlank | src/dataset_quality.py:34-35 | A cell that is NA after the replacement: Missing, or text of whitespace only; never a number |
| DatasetQuality.Score | src/dataset_quality.py:10-45 | An empty table (no rows or no columns) gives the all-zero report. Otherwise rows and cols are the table's sizes, `missing_ratio` is `missing_cells / (rows*cols)`, `missing_cells <= rows*cols`, the ratio lies in [0,1], duplicates are below rows (none when there are no rows), and `empty_columns <= cols` |
| DatasetQuality.ScoreCounts | src/dataset_quality.py:21-36 | On a non-empty table: missing cells equal the row-by-row count of Missing cells; duplicates equal rows minus the number of distinct rows; empty columns equal the size of the set of blank column indices |
| DatasetQuality.MissingInColumn | src/dataset_quality.py:26 | A column's Missing count is at most the number of rows |
| DatasetQuality.MissingCells | src/dataset_quality.py:26 | Missing cells summed column by column are at most rows times columns |
| DatasetQuality.MissingCellsByRows | src/dataset_quality.py:26 | Counting Missing cells column by column (`isna().sum().sum()`) equals counting them row by row |
| DatasetQuality.DuplicateCount | src/dataset_quality.py:30 | Rows equal to an earlier row are counted, the first occurrence excluded. The count is at most the row count, and strictly below it when there is a row |
| DatasetQuality.DuplicatesAreRowsMinusDistinct | src/dataset_quality.py:30 | The duplicate count is the number of rows minus the number of distinct rows |
| DatasetQuality.NoDuplicatesIffAllDistinct | src/dataset_quality.py:30 | The duplicate count is zero exactly when all rows are pairwise different |
| DatasetQuality.ThreeEqualRowsHaveTwoDuplicates | src/dataset_quality.py:30 | Three equal rows report two duplicates |
| DatasetQuality.ColumnBlank | src/dataset_quality.py:34 | A column is empty when every cell is blank after the `^\s*$` replacement (`isna().all()`) |
| DatasetQuality.EmptyColumnCount | src/dataset_quality.py:33-36 | The number of columns in which every cell is Missing or whitespace-only text is at most the column count |
| DatasetQuality.EmptyColumnsAreBlankColumns | src/dataset_quality.py:33-36 | The empty-column count is the size of the set of columns whose every cell is blank |
| DatasetQuality.WhitespaceColumnIsEmptyNotMissing | src/dataset_quality.py:26-36 | A column of whitespace-only strings is counted as empty but adds nothing to the missing cells, which are counted before the whitespace replacement |
| DatasetQuality.HeadersWithoutRowsGiveZeros | src/dataset_quality.py:11-19 | A table with headers but no rows gets the all-zero report, so it reports 0 columns whatever its width |
| Valuation.DimensionNamesDistinct | app.py:71-78 | The six value dimensions are pairwise distinct |
| Valuation.Sum | app.py:321 | Python's `sum` over the values, left to right |
| Valuation.MaxOf | app.py:325 | The maximum is one of the values and no value exceeds it |
| Valuation.Positions | app.py:325-326 | The positions below n holding a given value: each one does, and they are in increasing order |
| Valuation.PositionsComplete | app.py:325-326 | Every position below n that holds the value is listed |
| Valuation.TopPositions | app.py:325-326 | The positions holding the maximum: never empty, each one maximal, in increasing order |
| Valuation.TopPositionsComplete | app.py:325-326 | Every position holding the maximum is listed |
| Valuation.TopDimensions | app.py:325-326 | The top list is non-empty and lists, in declaration order, the names of the dimensions at the maximal positions |
| Valuation.TopDimensionsAreTheMaxima | app.py:325-326 | A dimension is in the top list if and only if its value equals the maximum |
| Valuation.TopIsAllWhenAllTied | app.py:385-386 | When every value is equal, all six dimensions are top, in declaration order |
| Valuation.Percent | app.py:323 | `p * whole == part * 100`, and p lies in [0,100] when `0 <= part <= whole` |
| Valuation.StarValuation | app.py:320-326 | The score is the star total as a percentage of 6*5 (`Percent`). With stars in 0..5 it lies in [0,100]. The top list is the top dimensions of the stars |
| Valuation.StarTotalBounds | app.py:321-322 | With stars in 0..5 the star total lies between 0 and 6*5 |
| Valuation.WeightedValues | app.py:376-379 | One weighted value per dimension |
| Valuation.WeightedMaxima | app.py:382 | One `5 * weight` per dimension |
| Valuation.WeightedValuation | app.py:368-386 | Raises (ZeroDivisionError) if and only if `sum(5*w)` is zero. Otherwise the score is `sum(stars*w)` as a percentage of `sum(5*w)` (`Percent`), lies in [0,100] for in-range stars and weights, and the top list is the top dimensions of the weighted values |
| Valuation.WeightedTotalBounds | app.py:381-382 | With in-range stars and weights the weighted total lies between 0 and the weighted maximum |
| Valuation.ZeroDivisionIffAllWeightsZero | app.py:382-383 | With in-range weights the weighted calculation raises exactly when every slider is at 0.0 |
| Valuation.Uniform | app.py:297 | Six copies of one value, as when every slider or star widget reads the same |
| Valuation.PercentScaled | app.py:383 | Scaling part and whole by the same positive factor leaves the percentage unchanged |
| Valuation.EqualWeightsScore | app.py:368-386 | With every weight equal and positive the weighted score equals the star-only score |
| Valuation.EqualWeightsMatchStarValuation | app.py:368-386 | With every weight equal and positive (1.0 when weighting is off, 0.5 for untouched sliders) the weighted score and top list equal the star-only ones |
| Valuation.StarResults | app.py:320-339 | The star-only record carries the given id, timestamp, signature and use case, `apply_weights` false, the six stars, six weights of 1.0 and the computed score |
| Valuation.WeightedResults | app.py:368-399 | No record is built exactly when the weighted calculation raises. Otherwise the record carries the inputs, `apply_weights` true, the six stars and weights as given, and the computed score |
| Valuation.TagValues | app.py:528 | Ranks the stars, or the weighted values when weights are applied, one per dimension |
| Valuation.Tags | app.py:528-533 | No tags when the top score is at most 0. Otherwise a dimension is tagged if and only if its value equals the top score, and every tag is a dimension name |
| Valuation.TagsAreTopDimensions | app.py:528-533 | When the top score is positive the tags are exactly the dimensions of the top list; otherwise there are none |
| Valuation.AllZeroTiesEverythingButShowsNoTags | app.py:528-533 | With every rating at zero all six dimensions tie on top, but no tag is shown |
| Valuation.Repeat | app.py:155 | `c * n` gives n copies of c, none for non-positive n |
| Valuation.Clamp | app.py:153-154 | `max(0, min(max_stars, s))`: unchanged when in range, max_stars when above it, 0 when negative or when max_stars is negative; always in [0, max_stars] for non-negative max_stars |
| Valuation.StarString | app.py:152-155 | max_stars symbols (none if negative). Position k is a filled star exactly when k is below the clamped count; every other position is a hollow star |
| Valuation.StarStringCountsBack | app.py:152-155 | A five-star string has five symbols, and its filled stars count back to the clamped rating |
| Valuation.EconomicOnlyExample | app.py:320-326 | Stars {5,0,0,0,0,0} score 50/3 (16.67 once rounded), with Economic alone on top |
| Valuation.HalfWeightsFourStarsExample | app.py:376-386 | Every weight 0.5 and every rating 4 score 80.0, with all six tied on top |
| Valuation.TieExample | app.py:325-326 | Stars {3,3,1,0,0,0} give the top list Economic, Social, in that order |
| SessionKeys.Decimal | app.py:132 | A counter renders as a non-empty string of digits |
| SessionKeys.DecimalRoundTrip | app.py:132 | Reading a rendered counter gives the counter back |
| SessionKeys.Normalize | app.py:133-134 | Same length, no spaces and no capitals in the result; other characters kept |
| SessionKeys.NormalizeIdempotent | app.py:133-134 | Normalizing a key twice is normalizing it once |
| SessionKeys.RatingKey | app.py:128-135 | A star-widget key starts with `rating_`, has no spaces or capitals, and is the prefix, both counters and the normalized `sig_usecase_dim` joined by underscores |
| SessionKeys.RatingKeyDeterminesNonces | app.py:128-135 | Equal star-widget keys have equal shared and per-dimension counters, so raising either counter yields a new key |
| SessionKeys.WeightKey | app.py:288-295 | A slider key starts with `weight_` and has no spaces or capitals |
| SessionKeys.StartsWith | app.py:125 | `str.startswith`: the prefix is no longer than the string and equals its first characters |
| SessionKeys.IsDependentKey | app.py:125 | The keys cleared on a new upload: those starting with `rating_` or `weight_` |
| SessionKeys.NamedKeysAreNotDependent | app.py:113-126 | No fixed-name session key is cleared by the prefix test |
| SessionKeys.FileSignature | app.py:107-110 | The signature starts with `name-size-` and the rest is the digest |
| SessionKeys.SignatureSeparatesContent | app.py:107-110 | Same name and size with different digests give different signatures |
| SaveGuard.ShouldSave | app.py:341 | The save guard: the id is set and differs from the remembered one. The id last saved never passes; any set id passes when nothing is remembered |
| SaveGuard.SavedAfter | app.py:341-347 | The remembered id becomes the submission id after a guarded successful save, and is unchanged after a failure or when the guard blocks |
| SaveGuard.NoSecondSaveAfterSuccess | app.py:341-347 | After a successful save, the same id does not pass the guard again |
| SaveGuard.RetryAfterFailure | app.py:341-347 | After a failed save, the same id passes the guard on the next run |
| SaveGuard.AtMostOneSave | app.py:341-347 | Over any series of reruns with one id, the record is stored once if the guard passes and some save succeeds, and never otherwise |
| SaveGuard.AttemptsUntilFirstSuccess | app.py:341-347 | The store is called on every rerun up to and including the first success and on none after it; never if the guard blocks |
| SaveGuard.Attempts | app.py:341-347 | The store calls over a series of reruns with one id: at most one per rerun |
| SaveGuard.Saves | app.py:341-347 | The records stored over those reruns: never more than the store calls |
| SaveGuard.FirstSuccess | app.py:341-347 | The first successful rerun: a success with only failures before it |
| SaveGuard.InsertIfAbsent | src/storage.py:29-32 | An insert adds the id to the table's keys, keeps every existing row, and stores the record only when its id is new |
| SaveGuard.InsertIfAbsentKeepsFirst | src/storage.py:29-32 | A second insert with the same id changes nothing; the table grows by at most one row |
| SessionState.DimensionEnding | app.py:71-78 | Each dimension name ends in its listed three-letter ending |
| SessionState.DimensionEndingsDistinct | app.py:71-78 | The six dimension names end in different three-letter endings, which key normalization keeps |
| SessionState.RatingKeyEnding | app.py:128-135 | A star-widget key ends with its dimension's last three letters |
| SessionState.RatingKeyDeterminesDimension | app.py:128-135 | Equal star-widget keys belong to the same dimension |
| SessionState.NonceOf | app.py:129-130 | A dimension's counter, `.get(dim, 0)`: 0 when it has none |
| SessionState.KeyFor | app.py:128-135 | The star-widget key built from the shared counter and the dimension's counter |
| SessionState.StarsIn | app.py:248-255 | One star value per dimension: the rating stored under its current key, or 0 |
| SessionState.WeightsIn | app.py:368-373 | The weights read back: each slider's stored value, or 0.5 when its key is absent |
| SessionState.RatingKeepsKeysBehind | app.py:248-255 | Storing a rating under a dimension's current key keeps every stored key at or behind the counters |
| SessionState.OtherWidgetKeepsKeysBehind | app.py:281-295 | Storing a value under a key without the `rating_` prefix keeps every stored key behind the counters |
| SessionState.ClearedWidgetsReadDefaults | app.py:113-126 | Once no `rating_`/`weight_` key is left, no current key holds a value, every star widget reads 0, every slider reads 0.5, and the keys are behind any counters |
| SessionState.RaisedCounterReadsZero | app.py:147-150 | Raising the shared counter past its value keeps the keys behind, changes every dimension's key, and makes every star widget read 0 |
| SessionState.RaisedDimensionReadsZero | app.py:141-144 | Raising one dimension's counter keeps the keys behind and changes only that dimension's key. Its star widget reads 0 and every other one reads what it read before |
| SessionState.ValuationStore.constructor | src/storage.py:22-46 | The store starts with no rows |
| SessionState.ValuationStore.Save | src/storage.py:22-46 | The rows become the old rows with the record inserted if its id is new |
| SessionState.Session.constructor | app.py:54-68 | Flags false; no use case, submission id or saved id; shared counter 0; every dimension counter 0; no widget state; the key invariant holds |
| SessionState.Session.StarValues | app.py:248-255 | One star value per dimension, read from this session's widgets and counters |
| SessionState.Session.SliderWeights | app.py:368-373 | One weight per dimension, read from this session's widgets |
| SessionState.Session.RateDimension | app.py:248-255 | A star rating is stored under the dimension's current key, and the key invariant is kept |
| SessionState.Session.SetWidget | app.py:288-295 | A slider's or any other keyed widget's value is stored under its key, and the key invariant is kept |
| SessionState.Session.DropDependentKeys | app.py:124-126 | Over a snapshot of the keys, exactly the `rating_`/`weight_` entries are deleted and every other entry is kept |
| SessionState.Session.ResetDependentState | app.py:113-126 | Flags false, no use case, weights off, and the shared counter one higher. Exactly the `rating_`/`weight_` keys are removed and every other entry is kept. Afterwards every star widget reads 0 and every slider reads 0.5 |
| SessionState.Session.ResetOneDimension | app.py:141-144 | Flags false. Only that dimension's counter moves, so only its key changes. Its star widget reads 0, the others read what they read before |
| SessionState.Session.ResetRatingsOnly | app.py:147-150 | Flags false. The shared counter moves, so every key changes and every star widget reads 0 |
| SessionState.Session.SelectUseCase | app.py:212-218 | The use-case box stores its choice and the key invariant is kept |
| SessionState.Session.SetApplyWeights | app.py:281-283 | The weights checkbox stores its state and the key invariant is kept |
| SessionState.Session.ConfirmScores | app.py:272 | Scores are confirmed |
| SessionState.Session.RequestCalculation | app.py:300-302 | Calculation is requested with the fresh submission id |
| SessionState.Session.CurrentSubmitId | app.py:331 | The submission id put in the record; an unset id reads as the falsy empty string |
| SessionState.Session.SaveResults | app.py:341-347 | Runs only while a calculation is requested, on a record carrying the session's id. The store is called exactly when the guard passes. The remembered id follows `SavedAfter`. The store's rows gain the record, if absent, only on a guarded successful save |
| SessionState.CalculateThenRerun | app.py:341-347 | After Calculate Scores with a fresh id, the first rerun saves and stores the record; the second rerun does not call the store, whatever record it builds |
| SessionState.FailThenRetry | app.py:341-347 | After Calculate Scores with a fresh id and a failed first save, the next rerun calls the store again and stores its record |

## Left out

- Rounding: the score to two decimals and the missing ratio to four decimals are not modelled; the model states the exact values before rounding.
- Floating point: weighted ties are compared exactly in tenths. The source compares floats, so ties such as `3 * 0.1` against `1 * 0.3` may be missed there.
- Unrated dimensions: a star widget that reports `None` is not modelled. Ratings are integers, on which `x or 0` and `int(x)` are the identity.
- Valuation.StarString: takes the rating as an integer. Python's `round` of a float score (ties to even) is not modelled.
- SessionKeys.Normalize: lower-cases only ASCII letters. Python's `str.lower` on other scripts is not modelled.
- SessionKeys.FileSignature: the MD5 digest and the file's byte size come in as inputs. Reading the upload, and parsing CSV and Excel into a table, are library calls outside the model.
- The database in src/storage.py: the connection, the secrets lookup and the JSON encoding of stars and weights are not modelled. The insert is its `ON CONFLICT DO NOTHING` contract. A failing insert stores nothing and comes in as a boolean input.
- `uuid.uuid4()` and `datetime.now()` come in as inputs.
- The Streamlit page is not modelled: layout, text, buttons, charts, dataframe previews, the `st.stop` flow and the display sort of the summary table. The tag order that sort leaves open is not claimed; tags are a set.
- SessionState.Session.ResetRatingsOnly, SessionState.Session.ResetOneDimension: "reads 0" is proved for star widgets whose stored ratings were written through `RateDimension`, which is what the key invariant `Valid` (`KeysBehind`) records. Old keys are never deleted by these two resets, as in the source.
- DatasetQuality.Score: the table is an immutable value, so "the table is not modified and a second call gives the same report" holds by construction and is not stated as a lemma.
- pandas NA semantics beyond "a cell is Missing, or is text of whitespace only" are not modelled: numbers are never blank, and two Missing cells compare equal when rows are compared for duplicates.
