/**
 * What processing one CSV row does to the store, as a value: the row is
 * skipped, its Submission with its scores and report request are inserted,
 * or it raises and aborts the run.
 */
module RowMapper {
  import opened Wrappers
  import opened Text
  import opened Schema
  import opened LookupCache

  /** Why a row was passed over without aborting the run. */
  datatype SkipReason = InvalidId | DuplicateId

  /** The effect of one row on the store. */
  datatype RowResult =
    | Skip(reason: SkipReason)
    | Insert(submission: Submission, scores: seq<SubmissionScore>, request: Option<ReportRequest>)
    | Abort(error: LoadError)

  /** `uuid.UUID(row['id'])`; a missing column and a NaN cell raise too, and all of it is caught. */
  function ParseId(lib: Library, row: Row): Option<Uuid> {
    if IdColumn in row && row[IdColumn].Some? then lib.parseUuid(row[IdColumn].value) else None
  }

  /** `row[column]`, which raises KeyError when the header has no such column. */
  function ColumnOf(row: Row, column: string): Result<Cell, LoadError> {
    if column in row then Success(row[column]) else Failure(MissingColumn(column))
  }

  /** `datetime.fromisoformat(row['created_at'].replace('+00:00', ''))`. */
  function ParseCreatedAt(lib: Library, row: Row): Result<DateTime, LoadError> {
    var cell :- ColumnOf(row, CreatedAtColumn);
    match cell
    case None => Failure(NullTimestamp)
    case Some(text) =>
      match lib.fromIsoFormat(RemoveAll(text, UtcSuffix))
      case None => Failure(BadTimestamp(text))
      case Some(d) => Success(d)
  }

  /** The Submission row built from the CSV row, in the order its parts are evaluated. */
  function BuildSubmission(lk: Lookups, lib: Library, id: Uuid, row: Row): Result<Submission, LoadError> {
    var createdAt :- ParseCreatedAt(lib, row);
    var ageRange :- ColumnOf(row, AgeRangeColumn);
    var region :- ColumnOf(row, RegionColumn);
    var ratio :- ColumnOf(row, RatioColumn);
    var firstName :- ColumnOf(row, FirstNameColumn);
    var lastName :- ColumnOf(row, LastNameColumn);
    var email :- ColumnOf(row, EmailColumn);
    Success(Submission(id, createdAt, Resolve(ageRange, lk.ageRanges), Resolve(region, lk.regions),
                       ratio, firstName, lastName, email))
  }

  /** The score rows for the rate columns of `mapping`, in order: one per populated cell. */
  function ScoresFor(lib: Library, indicators: map<string, int>, id: Uuid, row: Row,
                     mapping: seq<(string, string)>): Result<seq<SubmissionScore>, LoadError>
  {
    if mapping == [] then Success([])
    else
      var (column, name) := mapping[0];
      if column !in row then Failure(MissingColumn(column))
      else match row[column]
        case None => ScoresFor(lib, indicators, id, row, mapping[1..])
        case Some(text) =>
          if name !in indicators then Failure(UnknownIndicator(name))
          else match lib.toInt(text)
            case None => Failure(BadScore(column, text))
            case Some(v) =>
              match ScoresFor(lib, indicators, id, row, mapping[1..])
              case Failure(e) => Failure(e)
              case Success(rest) => Success([SubmissionScore(id, indicators[name], v)] + rest)
  }

  /** `pd.notna(email) and email.strip()`: the e-mail cell is present and not blank. */
  predicate WantsReport(email: Cell) {
    email.Some? && Strip(email.value) != []
  }

  /** One 'completed' report request when the e-mail asks for one. */
  function RequestFor(id: Uuid, email: Cell): Option<ReportRequest> {
    if WantsReport(email) then Some(ReportRequest(id, CompletedStatus)) else None
  }

  /** The effect of one row on a store holding `t`. */
  function RowResultOf(lk: Lookups, lib: Library, t: Tables, row: Row): RowResult {
    match ParseId(lib, row)
    case None => Skip(InvalidId)
    case Some(id) =>
      match BuildSubmission(lk, lib, id, row)
      case Failure(e) => Abort(e)
      case Success(sub) =>
        if id in t.submissions then Skip(DuplicateId)
        else match ScoresFor(lib, lk.indicators, id, row, IndicatorMapping)
          case Failure(e) => Abort(e)
          case Success(ss) => Insert(sub, ss, RequestFor(id, sub.email))
  }

  function RequestRows(request: Option<ReportRequest>): seq<ReportRequest> {
    if request.Some? then [request.value] else []
  }

  /** The store after a row's inserts; a skipped or aborting row adds nothing. */
  function Apply(t: Tables, r: RowResult): Tables {
    match r
    case Insert(sub, ss, req) =>
      Tables(t.submissions[sub.id := sub], t.scores + ss, t.requests + RequestRows(req))
    case _ => t
  }

  // ---------------------------------------------------------------------------
  // Rate columns
  // ---------------------------------------------------------------------------

  /** The entries of `mapping` whose rate cell is populated, in mapping order. */
  function PresentRates(row: Row, mapping: seq<(string, string)>): seq<(string, string)> {
    if mapping == [] then []
    else
      var column := mapping[0].0;
      (if column in row && row[column].Some? then [mapping[0]] else []) + PresentRates(row, mapping[1..])
  }

  /** The rate column of `entry` is in the header and, when populated, its label and its value both resolve. */
  predicate RateCellOk(lib: Library, indicators: map<string, int>, row: Row, entry: (string, string)) {
    entry.0 in row &&
    (row[entry.0].Some? ==> entry.1 in indicators && lib.toInt(row[entry.0].value).Some?)
  }

  /** `s` is the score row `(id, indicators[label], int(cell))` for the populated column of `entry`. */
  predicate ScoreMatches(lib: Library, indicators: map<string, int>, id: Uuid, row: Row,
                         entry: (string, string), s: SubmissionScore)
  {
    entry.0 in row && row[entry.0].Some? && entry.1 in indicators &&
    s.submissionId == id && s.indicatorId == indicators[entry.1] &&
    lib.toInt(row[entry.0].value) == Some(s.value)
  }

  /**
   * Scoring succeeds exactly when every rate column is in the header and every
   * populated one has a known indicator label and an integer value.
   */
  lemma {:induction false} ScoresForSucceedsIff(lib: Library, indicators: map<string, int>, id: Uuid, row: Row,
                                                mapping: seq<(string, string)>)
    ensures ScoresFor(lib, indicators, id, row, mapping).Success? <==>
      forall k :: 0 <= k < |mapping| ==> RateCellOk(lib, indicators, row, mapping[k])
  {
    if mapping != [] {
      var tail := mapping[1..];
      ScoresForSucceedsIff(lib, indicators, id, row, tail);
      assert forall k :: 0 < k < |mapping| ==> mapping[k] == tail[k - 1];
      if forall k :: 0 <= k < |tail| ==> RateCellOk(lib, indicators, row, tail[k]) {
        assert (forall k :: 0 <= k < |mapping| ==> RateCellOk(lib, indicators, row, mapping[k])) <==>
          RateCellOk(lib, indicators, row, mapping[0]);
      } else {
        var k :| 0 <= k < |tail| && !RateCellOk(lib, indicators, row, tail[k]);
        assert !RateCellOk(lib, indicators, row, mapping[k + 1]);
      }
    }
  }

  /** Successful scoring yields one matching score per populated rate column, in mapping order. */
  lemma {:induction false} ScoresForYields(lib: Library, indicators: map<string, int>, id: Uuid, row: Row,
                                           mapping: seq<(string, string)>)
    requires ScoresFor(lib, indicators, id, row, mapping).Success?
    ensures var ss := ScoresFor(lib, indicators, id, row, mapping).value;
      var present := PresentRates(row, mapping);
      |ss| == |present| &&
      forall k :: 0 <= k < |ss| ==> ScoreMatches(lib, indicators, id, row, present[k], ss[k])
  {
    if mapping != [] {
      var column := mapping[0].0;
      var tail := mapping[1..];
      var ss := ScoresFor(lib, indicators, id, row, mapping).value;
      assert ScoresFor(lib, indicators, id, row, tail).Success?;
      ScoresForYields(lib, indicators, id, row, tail);
      var rest := ScoresFor(lib, indicators, id, row, tail).value;
      var present := PresentRates(row, tail);
      if row[column].None? {
        assert ss == rest && PresentRates(row, mapping) == present;
      } else {
        assert ss == [ss[0]] + rest && PresentRates(row, mapping) == [mapping[0]] + present;
        assert ScoreMatches(lib, indicators, id, row, mapping[0], ss[0]);
      }
    }
  }

  // ---------------------------------------------------------------------------
  // One row
  // ---------------------------------------------------------------------------

  /**
   * A row whose id does not parse (or whose id cell is missing or NaN) is
   * skipped, whatever the rest of the row holds and however timestamps would
   * parse; it changes nothing. Conversely, only such a row is skipped as invalid.
   */
  lemma InvalidIdSkipped(lk: Lookups, lib: Library, t: Tables, row: Row, isoParser: string -> Option<DateTime>)
    ensures RowResultOf(lk, lib, t, row) == Skip(InvalidId) <==> ParseId(lib, row).None?
    ensures ParseId(lib, row).None? ==>
      RowResultOf(lk, lib.(fromIsoFormat := isoParser), t, row) == Skip(InvalidId) &&
      Apply(t, RowResultOf(lk, lib, t, row)) == t
  {
  }

  /**
   * Once the id parses, the timestamp is parsed with every `+00:00` removed,
   * before the duplicate check: a missing, NaN or unparsable timestamp aborts
   * the row even when the id is already stored.
   */
  lemma TimestampFailureAborts(lk: Lookups, lib: Library, t: Tables, row: Row)
    requires ParseId(lib, row).Some?
    ensures CreatedAtColumn !in row ==> RowResultOf(lk, lib, t, row) == Abort(MissingColumn(CreatedAtColumn))
    ensures CreatedAtColumn in row && row[CreatedAtColumn].None? ==> RowResultOf(lk, lib, t, row) == Abort(NullTimestamp)
    ensures (CreatedAtColumn in row && row[CreatedAtColumn].Some? &&
             lib.fromIsoFormat(RemoveAll(row[CreatedAtColumn].value, UtcSuffix)).None?) ==>
      RowResultOf(lk, lib, t, row) == Abort(BadTimestamp(row[CreatedAtColumn].value))
  {
  }

  /**
   * The fields of an inserted submission: the parsed id and timestamp, the
   * age-range and region references (none when the cell is NaN or the label
   * is unknown, otherwise the cached key) and the other cells as read.
   */
  lemma InsertedSubmission(lk: Lookups, lib: Library, t: Tables, row: Row)
    requires RowResultOf(lk, lib, t, row).Insert?
    ensures var sub := RowResultOf(lk, lib, t, row).submission;
      ParseId(lib, row) == Some(sub.id) && sub.id !in t.submissions &&
      CreatedAtColumn in row && row[CreatedAtColumn].Some? &&
      lib.fromIsoFormat(RemoveAll(row[CreatedAtColumn].value, UtcSuffix)) == Some(sub.createdAt) &&
      AgeRangeColumn in row && RegionColumn in row &&
      (sub.ageRangeId.None? <==> row[AgeRangeColumn].None? || row[AgeRangeColumn].value !in lk.ageRanges) &&
      (sub.ageRangeId.Some? ==> sub.ageRangeId.value == lk.ageRanges[row[AgeRangeColumn].value]) &&
      (sub.regionId.None? <==> row[RegionColumn].None? || row[RegionColumn].value !in lk.regions) &&
      (sub.regionId.Some? ==> sub.regionId.value == lk.regions[row[RegionColumn].value]) &&
      RatioColumn in row && sub.instabilityRatio == row[RatioColumn] &&
      FirstNameColumn in row && sub.firstName == row[FirstNameColumn] &&
      LastNameColumn in row && sub.lastName == row[LastNameColumn] &&
      EmailColumn in row && sub.email == row[EmailColumn]
  {
  }

  /** The age-range reference with its value replaced; other results are unchanged. */
  function WithAgeRange(r: RowResult, ref: Option<int>): RowResult {
    if r.Insert? then r.(submission := r.submission.(ageRangeId := ref)) else r
  }

  /** The region reference with its value replaced; other results are unchanged. */
  function WithRegion(r: RowResult, ref: Option<int>): RowResult {
    if r.Insert? then r.(submission := r.submission.(regionId := ref)) else r
  }

  /** Two rows that only differ in one column other than the rate columns score alike. */
  lemma {:induction false} ScoresIgnoreColumn(lib: Library, indicators: map<string, int>, id: Uuid, row: Row,
                                              mapping: seq<(string, string)>, column: string, c: Cell)
    requires column in row
    requires forall k :: 0 <= k < |mapping| ==> mapping[k].0 != column
    ensures ScoresFor(lib, indicators, id, row[column := c], mapping) == ScoresFor(lib, indicators, id, row, mapping)
  {
    if mapping != [] {
      assert forall k :: 0 <= k < |mapping[1..]| ==> mapping[1..][k] == mapping[k + 1];
      ScoresIgnoreColumn(lib, indicators, id, row, mapping[1..], column, c);
    }
  }

  /**
   * Lenient lookup: whatever the age-range cell holds, the row meets the same
   * fate; the cell only decides the reference, which is its cached key or none.
   */
  lemma AgeRangeNeverFails(lk: Lookups, lib: Library, t: Tables, row: Row, c: Cell)
    requires AgeRangeColumn in row
    ensures RowResultOf(lk, lib, t, row[AgeRangeColumn := c]) ==
      WithAgeRange(RowResultOf(lk, lib, t, row), Resolve(c, lk.ageRanges))
  {
    var row' := row[AgeRangeColumn := c];
    assert ParseId(lib, row') == ParseId(lib, row);
    if ParseId(lib, row).Some? {
      ScoresIgnoreColumn(lib, lk.indicators, ParseId(lib, row).value, row, IndicatorMapping, AgeRangeColumn, c);
    }
  }

  /** Lenient lookup for the region column, as for the age range. */
  lemma RegionNeverFails(lk: Lookups, lib: Library, t: Tables, row: Row, c: Cell)
    requires RegionColumn in row
    ensures RowResultOf(lk, lib, t, row[RegionColumn := c]) ==
      WithRegion(RowResultOf(lk, lib, t, row), Resolve(c, lk.regions))
  {
    var row' := row[RegionColumn := c];
    assert ParseId(lib, row') == ParseId(lib, row);
    if ParseId(lib, row).Some? {
      ScoresIgnoreColumn(lib, lk.indicators, ParseId(lib, row).value, row, IndicatorMapping, RegionColumn, c);
    }
  }

  /**
   * A row whose id is already stored, and whose submission fields could be
   * evaluated, is skipped: nothing is added and the stored row stays as it is.
   */
  lemma DuplicateSkipped(lk: Lookups, lib: Library, t: Tables, row: Row)
    requires ParseId(lib, row).Some? && ParseId(lib, row).value in t.submissions
    requires BuildSubmission(lk, lib, ParseId(lib, row).value, row).Success?
    ensures RowResultOf(lk, lib, t, row) == Skip(DuplicateId)
    ensures Apply(t, RowResultOf(lk, lib, t, row)) == t
  {
  }

  /**
   * A row is inserted exactly when its id parses and is new, its submission
   * fields evaluate, and every rate column checks out; otherwise it is skipped
   * or aborts.
   */
  lemma InsertIff(lk: Lookups, lib: Library, t: Tables, row: Row)
    ensures RowResultOf(lk, lib, t, row).Insert? <==>
      ParseId(lib, row).Some? && ParseId(lib, row).value !in t.submissions &&
      BuildSubmission(lk, lib, ParseId(lib, row).value, row).Success? &&
      forall k :: 0 <= k < |IndicatorMapping| ==> RateCellOk(lib, lk.indicators, row, IndicatorMapping[k])
  {
    if ParseId(lib, row).Some? {
      ScoresForSucceedsIff(lib, lk.indicators, ParseId(lib, row).value, row, IndicatorMapping);
    }
  }

  /**
   * Strict lookup: a populated rate column whose indicator label is not cached
   * aborts a row that would otherwise be inserted.
   */
  lemma UnknownIndicatorAborts(lk: Lookups, lib: Library, t: Tables, row: Row, k: int)
    requires ParseId(lib, row).Some? && ParseId(lib, row).value !in t.submissions
    requires BuildSubmission(lk, lib, ParseId(lib, row).value, row).Success?
    requires 0 <= k < |IndicatorMapping|
    requires IndicatorMapping[k].0 in row && row[IndicatorMapping[k].0].Some?
    requires IndicatorMapping[k].1 !in lk.indicators
    ensures RowResultOf(lk, lib, t, row).Abort?
  {
    ScoresForSucceedsIff(lib, lk.indicators, ParseId(lib, row).value, row, IndicatorMapping);
    assert !RateCellOk(lib, lk.indicators, row, IndicatorMapping[k]);
  }

  /**
   * An inserted row adds one score per populated rate column, in mapping order,
   * each carrying the submission id, the indicator's key and the integer value.
   */
  lemma InsertedScores(lk: Lookups, lib: Library, t: Tables, row: Row)
    requires RowResultOf(lk, lib, t, row).Insert?
    ensures var r := RowResultOf(lk, lib, t, row);
      var present := PresentRates(row, IndicatorMapping);
      |r.scores| == |present| &&
      forall k :: 0 <= k < |present| ==>
        ScoreMatches(lib, lk.indicators, r.submission.id, row, present[k], r.scores[k])
  {
    ScoresForYields(lib, lk.indicators, ParseId(lib, row).value, row, IndicatorMapping);
  }

  /** With all five rate columns populated, an inserted row adds five scores, one per indicator in order. */
  lemma AllRatesGiveFiveScores(lk: Lookups, lib: Library, t: Tables, row: Row)
    requires RowResultOf(lk, lib, t, row).Insert?
    requires forall k :: 0 <= k < |IndicatorMapping| ==>
      IndicatorMapping[k].0 in row && row[IndicatorMapping[k].0].Some?
    ensures var r := RowResultOf(lk, lib, t, row);
      |r.scores| == 5 &&
      forall k :: 0 <= k < 5 ==>
        ScoreMatches(lib, lk.indicators, r.submission.id, row, IndicatorMapping[k], r.scores[k])
  {
    InsertedScores(lk, lib, t, row);
    AllPresent(row, IndicatorMapping);
  }

  /** When every rate cell of `mapping` is populated, all of its entries are present. */
  lemma {:induction false} AllPresent(row: Row, mapping: seq<(string, string)>)
    requires forall k :: 0 <= k < |mapping| ==> mapping[k].0 in row && row[mapping[k].0].Some?
    ensures PresentRates(row, mapping) == mapping
  {
    if mapping != [] {
      assert forall k :: 0 <= k < |mapping[1..]| ==> mapping[1..][k] == mapping[k + 1];
      AllPresent(row, mapping[1..]);
      assert mapping == [mapping[0]] + mapping[1..];
    }
  }

  /**
   * An inserted row adds one 'completed' report request exactly when its
   * e-mail cell is present and not blank; a blank e-mail is still stored.
   */
  lemma InsertedRequest(lk: Lookups, lib: Library, t: Tables, row: Row)
    requires RowResultOf(lk, lib, t, row).Insert?
    ensures var r := RowResultOf(lk, lib, t, row);
      EmailColumn in row && r.submission.email == row[EmailColumn] &&
      (r.request.Some? <==> row[EmailColumn].Some? && !IsBlank(row[EmailColumn].value)) &&
      (r.request.Some? ==> r.request.value == ReportRequest(r.submission.id, CompletedStatus))
  {
    if EmailColumn in row && row[EmailColumn].Some? {
      StripEmptyIffBlank(row[EmailColumn].value);
    }
  }
}
