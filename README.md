# Survey loader, modelled in Dafny

This project models the survey-response loader `load_survey_data` of
`database/load_data.py`. The loader reads the rows of a CSV export. It
first builds three label-to-key caches from the lookup tables AgeRanges,
Regions and Indicators. It then works through the rows in order, inside one
database transaction:

- a row whose `id` is not a UUID is skipped silently;
- the `created_at` text has every `+00:00` removed and is parsed as a
  timestamp, naive when it carried no other offset;
- the age-range and region labels are resolved leniently: a NaN cell or an
  unknown label gives no reference;
- the Submission is inserted; a duplicate id (one already stored, or
  inserted earlier in the same run) skips the rest of the row;
- one SubmissionScore is inserted per populated rate column, out of five
  fixed columns, with the indicator resolved strictly;
- a ReportRequest with status `'completed'` is inserted when the e-mail is
  not blank.

The transaction is committed after the last row. If any row raises anything
else, it is rolled back.

Files and modules:

- `wrappers.dfy`, module `Wrappers`: `Option` and `Result`.
- `text.dfy`, module `Text`: Python's `str.strip()` and
  `str.replace(p, '')`, with their characterising lemmas.
- `schema.dfy`, module `Schema`: the store's rows and tables, a CSV row, the
  column and status constants, and the errors that can raise.
- `lookups.dfy`, module `LookupCache`: the dict comprehensions that build
  the caches (lines 60-70), and the lenient lookup.
- `row_mapper.dfy`, module `RowMapper`: what one row does to the store, as
  a value (`RowResultOf`), and the per-row properties.
- `batch.dfy`, module `Batch`: the whole pass as a value (`LoadRows`).
  It covers all-or-nothing failure, what a committed pass keeps, and the
  counters.
- `loader.dfy`, module `Loader`: the store as a class whose three tables are
  updated in place. `ProcessRow` processes one row. `ApplyRows` is the loop.
  `Run` restores the snapshot taken at the start when a row raises. Each
  method is proved against the functions of `RowMapper` and `Batch`.
- `scenarios.dfy`, module `Scenarios`: a sample row worked through from an
  empty store.

The code calls three library routines that the model does not re-implement:
`uuid.UUID(text)`, `datetime.fromisoformat(text)` and `int(...)` on a rate
cell. They are parameters, given as the fields of `Schema.Library`. Each is a
total function that returns `None` when the call would raise, so every
property holds for every behaviour of them. A CSV cell is an
`Option<string>`, where `None` stands for NaN. A row maps column names to
cells. A column missing from the header raises `KeyError` when indexed.

Where the program's own comments promise more than its code does, the model
follows the code:

- The comment at lines 91-92 speaks of a *trailing* `+00:00` to strip. The
  code calls `replace('+00:00', '')`, which removes every occurrence,
  wherever it is (`Text.RemoveAll`, the non-overlapping left-to-right scan of
  `str.replace`). Any other offset stays, and `fromisoformat` then yields an
  aware `datetime` (`Schema.DateTime.utcOffsetMinutes`).
- The comment at lines 95-96 allows `None` when a value is missing or NaN.
  That holds for NaN cells. A column that is absent from the header raises
  `KeyError` when indexed, and the row aborts the run. The exception is
  `id`, whose `KeyError` is caught together with the UUID error at lines
  85-89, so the row is skipped.
- The module docstring (line 11) and the function docstring (lines 38-39)
  say duplicated submission ids are skipped. In the code, the timestamp and
  the lookups are evaluated before the insert that detects the duplicate. A
  duplicate row with a bad timestamp therefore aborts the run
  (`RowMapper.TimestampFailureAborts` holds whatever the store holds).
- A NaN `created_at` raises, because `.replace` is called on a float
  (`Schema.NullTimestamp`).

## Model

| member | source | states |
|---|---|---|
| Text.Strip | database/load_data.py:142 | no contract of its own: `str.strip()`, characterised by Text.StripSpec and Text.StripEmptyIffBlank |
| LookupCache.BuildLookups | database/load_data.py:60-70 | no contract of its own: the three caches, each a BuildLookup |
| LookupCache.Resolve | database/load_data.py:97-98 | no contract of its own: the lenient lookup, characterised by RowMapper.AgeRangeNeverFails, RowMapper.RegionNeverFails and RowMapper.InsertedSubmission |
| RowMapper.ParseId | database/load_data.py:85-89 | no contract of its own: the id check, characterised by RowMapper.InvalidIdSkipped |
| RowMapper.ParseCreatedAt | database/load_data.py:93 | no contract of its own: the timestamp parse, characterised by RowMapper.TimestampFailureAborts and RowMapper.InsertedSubmission |
| RowMapper.BuildSubmission | database/load_data.py:93-112 | no contract of its own: the insert's arguments in evaluation order, characterised by RowMapper.InsertedSubmission and RowMapper.InsertIff |
| RowMapper.ScoresFor | database/load_data.py:130-138 | no contract of its own: the rate-column loop, characterised by RowMapper.ScoresForSucceedsIff and RowMapper.ScoresForYields |
| RowMapper.WantsReport | database/load_data.py:142 | no contract of its own: the e-mail test, characterised by RowMapper.InsertedRequest |
| RowMapper.RequestFor | database/load_data.py:142-146 | no contract of its own: the report request, characterised by RowMapper.InsertedRequest |
| RowMapper.RowResultOf | database/load_data.py:84-146 | no contract of its own: the effect of one row, characterised by the RowMapper lemmas below |
| RowMapper.Apply | database/load_data.py:103-146 | no contract of its own: the inserts of a row, characterised by Batch.ApplyFresh |
| Batch.LoadFrom | database/load_data.py:80-146 | no contract of its own: the row loop as a value, characterised by Batch.LoadConcat, Batch.PassOnlyAdds, Batch.PassCountsExactly and Batch.PassKeepsConsistent |
| Batch.LoadRows | database/load_data.py:72-157 | no contract of its own: the whole pass from zeroed counters, characterised by the Batch lemmas and Loader.Store.Run |
| Text.TrimLeftSpec | database/load_data.py:142 | `lstrip()` result is the suffix after a blank prefix and does not start with white space |
| Text.TrimRightSpec | database/load_data.py:142 | `rstrip()` result is the prefix before a blank suffix and does not end with white space |
| Text.StripSpec | database/load_data.py:142 | `strip()` result is a slice of the input framed by white space on both sides, whose two ends are not white space |
| Text.StripEmptyIffBlank | database/load_data.py:142 | `email.strip()` is empty (falsy) exactly when the e-mail consists only of white space |
| Text.RemoveAll | database/load_data.py:93 | `replace('+00:00', '')` never lengthens the text |
| Text.RemoveAllAbsent | database/load_data.py:93 | a timestamp without `+00:00` passes through `replace` unchanged |
| Text.RemoveAllAfter | database/load_data.py:93 | an occurrence of the pattern after text that cannot start it is removed, and the scan resumes after it |
| LookupCache.BuildLookup | database/load_data.py:60-69 | the keys of a cache are exactly the labels present in its lookup table |
| LookupCache.LastRowWins | database/load_data.py:61 | a label carried by several lookup rows maps to the key of the last one (dict-comprehension overwrite) |
| RowMapper.ScoresForSucceedsIff | database/load_data.py:130-138 | the rate-column loop raises iff some rate column is missing from the header, or populated with an unknown indicator or a non-integer value |
| RowMapper.ScoresForYields | database/load_data.py:130-138 | a successful loop yields exactly one `(id, indicators[name], int(value))` per populated rate column, in mapping order, and no other score |
| RowMapper.ScoresIgnoreColumn | database/load_data.py:132-137 | the scores depend only on the rate columns: changing any other cell leaves them unchanged |
| RowMapper.AllPresent | database/load_data.py:132-133 | when every rate cell is populated, every mapping entry is scored |
| RowMapper.InvalidIdSkipped | database/load_data.py:84-89 | a row is skipped as invalid iff its id is missing, NaN or not a UUID; such a row adds nothing, whatever the timestamp parser does (it is skipped before the timestamp is parsed) |
| RowMapper.TimestampFailureAborts | database/load_data.py:91-93 | once the id parses, a missing, NaN or unparsable `created_at` (after removing `+00:00`) aborts the row with that error, even when the id is already stored |
| RowMapper.InsertedSubmission | database/load_data.py:91-112 | an inserted submission carries the parsed id (which was new), the parsed stripped timestamp, the age-range/region key or none by the lenient rule, and the ratio, names and e-mail cells as read |
| RowMapper.AgeRangeNeverFails | database/load_data.py:95-97 | whatever the age-range cell holds, the row meets the same fate; the cell only decides the reference, which is its key or none |
| RowMapper.RegionNeverFails | database/load_data.py:95-98 | the same for the region cell |
| RowMapper.DuplicateSkipped | database/load_data.py:100-117 | a row whose id is already stored, and whose submission fields evaluate, is skipped and leaves the store unchanged |
| RowMapper.InsertIff | database/load_data.py:84-138 | a row is inserted iff its id parses and is new, its submission fields evaluate and every rate column checks out |
| RowMapper.UnknownIndicatorAborts | database/load_data.py:137 | a populated rate column whose indicator label is not cached aborts a row that would otherwise be inserted (strict lookup) |
| RowMapper.InsertedScores | database/load_data.py:119-138 | an inserted row adds one matching score per populated rate column, in mapping order, and no others |
| RowMapper.AllRatesGiveFiveScores | database/load_data.py:122-138 | with all five rate cells populated, an inserted row adds five scores, one per indicator in mapping order |
| RowMapper.InsertedRequest | database/load_data.py:140-146 | an inserted row adds a `'completed'` request for its id iff the e-mail cell is present and not blank; the e-mail is stored as read either way |
| Batch.LoadSingle | database/load_data.py:80-146 | a pass over one inserting row commits that insert and counts one submission and its scores |
| Batch.LoadConcat | database/load_data.py:80 | a pass over `a + b` is the pass over `a` followed by the pass over `b`, unless `a` already failed |
| Batch.InvalidRowIgnored | database/load_data.py:84-89 | inserting a row with an invalid id anywhere in the input leaves the outcome of the pass unchanged |
| Batch.DuplicateRowIgnored | database/load_data.py:100-117 | a row whose id an earlier row of the pass (or the store) already holds, and whose insert arguments evaluate, is skipped: the pass is as if it were not there, at any distance |
| Batch.AbortFailsRun | database/load_data.py:154-156 | a row that raises after the rows before it went through makes the whole pass fail with its error, whatever follows |
| Batch.RepeatedIdSkipped | database/load_data.py:100-117 | of two rows with the same id, the first inserted, the second is skipped as a duplicate: the pass keeps the first row's data and counts one submission |
| Batch.ApplyFresh | database/load_data.py:103-117 | inserting under a fresh id keeps every stored submission, grows Submissions by one and only appends scores and requests |
| Batch.ExtendsTransitive | database/load_data.py:80 | "only adds" composes across rows |
| Batch.PassOnlyAdds | database/load_data.py:80-146 | for a step that inserts fresh ids, a completed pass keeps every stored submission unchanged and only appends scores and requests |
| Batch.PassCountsExactly | database/load_data.py:114 | the two counters rise by exactly the number of submissions and of scores the pass added |
| Batch.PassKeepsConsistent | database/load_data.py:132-146 | for a step whose scores and requests carry their submission's id, a completed pass keeps every score and request pointing at a stored submission |
| Batch.LoaderInsertsFresh | database/load_data.py:100-117 | the loader only inserts a submission under an id not yet stored |
| Batch.LoaderInsertsOwnRows | database/load_data.py:132-146 | the loader's scores and request carry the id of the submission inserted with them |
| Batch.CommittedRunOnlyAdds | database/load_data.py:72-138 | a committed run keeps every earlier submission and only appends, and `submissions_loaded`/`scores_loaded` equal the numbers of submissions and scores added |
| Batch.CommittedRunConsistent | database/load_data.py:80-149 | a committed run leaves no score or report request without its submission |
| Loader.Store.constructor | database/load_data.py:52-53 | a store opened on the given tables holds exactly them |
| Loader.Store.InsertScores | database/load_data.py:130-138 | the rate-column loop appends exactly the scores `ScoresFor` yields and returns their number, or stops with its error; it touches no other table |
| Loader.Store.ProcessRow | database/load_data.py:84-146 | processing one row reports the skip, insert (with its score count) or error of `RowResultOf`, and when it does not raise, the store becomes that row's effect applied |
| Loader.Store.ApplyRow | database/load_data.py:80-146 | one turn of the row loop: the pass from this row equals the pass from the next with the new store and counters, or fails with this row's error |
| Loader.Store.ApplyRows | database/load_data.py:72-146 | the row loop yields the counters of `LoadRows` with the store it commits, or that pass's error |
| Loader.Store.Run | database/load_data.py:55-157 | a run commits exactly the pass `LoadRows` over the rows with both counters, or rolls back to exactly the initial store and reports the error |
| Scenarios.SampleStampStripped | database/load_data.py:91-93 | `2024-01-15T10:00:00+00:00` loses its offset and becomes `2024-01-15T10:00:00` |
| Scenarios.SampleSubmission | database/load_data.py:91-112 | the sample row's submission has the naive timestamp, no age-range or region reference, ratio 0.42 and the e-mail |
| Scenarios.SampleScores | database/load_data.py:130-138 | the sample row scores only its economic-management rate, as 3 under that indicator's key |
| Scenarios.SampleWantsReport | database/load_data.py:142 | the sample e-mail `a@b.com` asks for a report |
| Scenarios.SampleRowInserts | database/load_data.py:84-146 | the sample row inserts one submission, one score and one `'completed'` request |
| Scenarios.SampleRunCommits | database/load_data.py:72-157 | a run over the sample row alone from an empty store commits those three rows and counts one submission and one score |

## Left out

- Reading the CSV with pandas (line 48) is left out: the rows are an input sequence of cells. Which texts pandas reads as NaN is not modelled.
- The pyodbc connection, cursor and close (lines 52-53, 160) are left out. The database is the in-memory `Loader.Store`, and commit and rollback are modelled as keeping the tables or restoring the snapshot.
- Progress and summary prints (lines 43, 49, 51, 56, 62, 66, 70, 75, 81-82, 150-152, 157) are left out: they are output only.
- `Schema.DateTime` carries the fields of a `datetime` and an optional UTC offset, but how `fromisoformat` arrives at them (including `Z` on newer Python versions) is part of the abstract parser.
- The internals of `uuid.UUID`, `datetime.fromisoformat` and `int()` on pandas floats are library code. They are abstract parameters (`Schema.Library`).
- The instability ratio is passed through as the cell read from the CSV. Its float value is not modelled.
- Integrity violations other than a duplicate submission id are left out. The model's store rejects nothing but a duplicate Submission id: the only `IntegrityError` at line 115 it produces is that one, and its score and request inserts (lines 134-137, 143-146) never raise.
- Connectivity and query errors, including a failure of the lookup queries (lines 60-68) and of `commit` (line 149), are left out. Every run reaches either commit or rollback.
- Concurrent loader runs, and races on duplicate detection, are left out: a run is sequential.
- `scripts/report_generator.py` is not part of this model. It is three queries followed by PDF layout and file writing.
- Loader.Store.ProcessRow: when a row raises, its contract says nothing about the partial writes it left behind. `Run` restores the whole store, and its contract states the exact result.
