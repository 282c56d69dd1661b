/**
 * The entities of the survey store and of one CSV export row, the name and
 * column constants the loader uses, and the library routines it calls but
 * that are not modelled here.
 */
module Schema {
  import opened Wrappers

  /** A parsed `uuid.UUID`: its 128-bit value. Two spellings of one UUID parse alike. */
  type Uuid = n: nat | n < 0x1_0000_0000_0000_0000_0000_0000_0000_0000

  /**
   * A `datetime`: naive when `utcOffsetMinutes` is `None`, aware otherwise
   * (`fromisoformat` keeps an offset other than `+00:00`, which is not removed).
   */
  datatype DateTime = DateTime(year: int, month: int, day: int,
                               hour: int, minute: int, second: int, microsecond: int,
                               utcOffsetMinutes: Option<int>)

  /** One CSV cell as pandas reads it: `None` is NaN (blank or missing value). */
  type Cell = Option<string>

  /** One CSV row: column name to cell. Indexing a column absent from the header raises `KeyError`. */
  type Row = map<string, Cell>

  /**
   * The library calls the loader depends on; `None` means that the call raised.
   * `parseUuid` is `uuid.UUID(text)`, `fromIsoFormat` is `datetime.fromisoformat(text)`
   * and `toInt` is `int(...)` applied to a rate cell.
   */
  datatype Library = Library(
    parseUuid: string -> Option<Uuid>,
    fromIsoFormat: string -> Option<DateTime>,
    toInt: string -> Option<int>)

  /** A row of the Submissions table; the instability ratio is kept as the cell read from CSV. */
  datatype Submission = Submission(
    id: Uuid,
    createdAt: DateTime,
    ageRangeId: Option<int>,
    regionId: Option<int>,
    instabilityRatio: Cell,
    firstName: Cell,
    lastName: Cell,
    email: Cell)

  /** A row of the SubmissionScores table. */
  datatype SubmissionScore = SubmissionScore(submissionId: Uuid, indicatorId: int, value: int)

  /** A row of the ReportRequests table. */
  datatype ReportRequest = ReportRequest(submissionId: Uuid, status: string)

  /** The three tables the loader writes; Submissions is keyed by its id. */
  datatype Tables = Tables(
    submissions: map<Uuid, Submission>,
    scores: seq<SubmissionScore>,
    requests: seq<ReportRequest>)

  /** A row of one of the read-only lookup tables AgeRanges, Regions or Indicators. */
  datatype LookupRow = LookupRow(key: int, name: string)

  /** The three name-to-key maps built once at the start of a run. */
  datatype Lookups = Lookups(
    ageRanges: map<string, int>,
    regions: map<string, int>,
    indicators: map<string, int>)

  /** What can raise while a row is processed, other than the caught cases. */
  datatype LoadError =
    | MissingColumn(column: string)     // `row[column]` raised KeyError
    | NullTimestamp                     // `.replace` called on a NaN cell
    | BadTimestamp(text: string)        // `fromisoformat` rejected the text
    | UnknownIndicator(name: string)   // `indicators[name]` raised KeyError
    | BadScore(column: string, text: string)  // `int(...)` rejected the cell

  const IdColumn := "id"
  const CreatedAtColumn := "created_at"
  const AgeRangeColumn := "age_range"
  const RegionColumn := "region"
  const RatioColumn := "instability_ratio"
  const FirstNameColumn := "first_name"
  const LastNameColumn := "last_name"
  const EmailColumn := "email"

  /** The literal removed from every timestamp before it is parsed. */
  const UtcSuffix := "+00:00"

  /** The status every report request created by the loader carries. */
  const CompletedStatus := "completed"

  /** The five rate columns, each paired with its Indicators name, in the order they are read. */
  const IndicatorMapping: seq<(string, string)> := [
    ("economic_management_rate", "Economic Management"),
    ("immigration_policy_rate", "Immigration Policy"),
    ("foreign_policy_rate", "Foreign Policy"),
    ("domestic_policy_rate", "Domestic Policy"),
    ("social_policy_rate", "Social Policy")
  ]

  /** Every score and every report request refers to a stored submission. */
  predicate Consistent(t: Tables) {
    (forall k :: 0 <= k < |t.scores| ==> t.scores[k].submissionId in t.submissions) &&
    (forall k :: 0 <= k < |t.requests| ==> t.requests[k].submissionId in t.submissions)
  }
}
