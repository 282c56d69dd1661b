/**
 * A worked row: one export line with a UTC timestamp, blank age range and
 * region, one populated rate column and an e-mail address, loaded into an
 * empty store.
 */
module Scenarios {
  import opened Wrappers
  import opened Text
  import opened Schema
  import opened LookupCache
  import opened RowMapper
  import opened Batch

  const SampleId := "3fa85f64-5717-4562-b3fc-2c963f66afa6"
  const SampleStamp := "2024-01-15T10:00:00+00:00"
  const SampleNaiveStamp := "2024-01-15T10:00:00"

  /** `row` is the sample line: its header has every column, and those it leaves empty are read as NaN. */
  predicate IsSampleRow(row: Row) {
    IdColumn in row && row[IdColumn] == Some(SampleId) &&
    CreatedAtColumn in row && row[CreatedAtColumn] == Some(SampleStamp) &&
    AgeRangeColumn in row && row[AgeRangeColumn] == None &&
    RegionColumn in row && row[RegionColumn] == None &&
    RatioColumn in row && row[RatioColumn] == Some("0.42") &&
    FirstNameColumn in row && row[FirstNameColumn] == None &&
    LastNameColumn in row && row[LastNameColumn] == None &&
    EmailColumn in row && row[EmailColumn] == Some("a@b.com") &&
    "economic_management_rate" in row && row["economic_management_rate"] == Some("3") &&
    "immigration_policy_rate" in row && row["immigration_policy_rate"] == None &&
    "foreign_policy_rate" in row && row["foreign_policy_rate"] == None &&
    "domestic_policy_rate" in row && row["domestic_policy_rate"] == None &&
    "social_policy_rate" in row && row["social_policy_rate"] == None
  }

  /** Removing the UTC offset from the sample timestamp leaves its naive part. */
  lemma SampleStampStripped()
    ensures RemoveAll(SampleStamp, UtcSuffix) == SampleNaiveStamp
  {
    assert SampleStamp == SampleNaiveStamp + UtcSuffix + [];
    RemoveAllAfter(SampleNaiveStamp, UtcSuffix, []);
    assert SampleNaiveStamp + [] == SampleNaiveStamp;
  }

  /** The submission fields of the sample row evaluate, with no age-range or region reference. */
  lemma SampleSubmission(lk: Lookups, lib: Library, row: Row, u: Uuid, when: DateTime)
    requires IsSampleRow(row)
    requires lib.fromIsoFormat(SampleNaiveStamp) == Some(when)
    ensures BuildSubmission(lk, lib, u, row) ==
      Success(Submission(u, when, None, None, Some("0.42"), None, None, Some("a@b.com")))
  {
    SampleStampStripped();
    assert ParseCreatedAt(lib, row) == Success(when);
  }

  /** The sample row scores only its economic-management rate. */
  lemma SampleScores(lk: Lookups, lib: Library, row: Row, u: Uuid, key: int)
    requires IsSampleRow(row)
    requires lib.toInt("3") == Some(3)
    requires "Economic Management" in lk.indicators && lk.indicators["Economic Management"] == key
    ensures ScoresFor(lib, lk.indicators, u, row, IndicatorMapping) == Success([SubmissionScore(u, key, 3)])
  {
    var m := IndicatorMapping;
    var score := SubmissionScore(u, key, 3);
    assert m[4..][1..] == [] && m[3..][1..] == m[4..] && m[2..][1..] == m[3..] && m[1..][1..] == m[2..];
    assert ScoresFor(lib, lk.indicators, u, row, m[4..]) == Success([]);
    assert ScoresFor(lib, lk.indicators, u, row, m[3..]) == Success([]);
    assert ScoresFor(lib, lk.indicators, u, row, m[2..]) == Success([]);
    assert ScoresFor(lib, lk.indicators, u, row, m[1..]) == Success([]);
    assert [score] + [] == [score];
  }

  /** The sample e-mail is not blank, so it asks for a report. */
  lemma SampleWantsReport()
    ensures WantsReport(Some("a@b.com"))
  {
    assert !IsSpace("a@b.com"[0]);
    StripEmptyIffBlank("a@b.com");
  }

  /**
   * With a library that parses the sample id, the naive timestamp and the
   * rate "3", and an Indicators cache that knows "Economic Management", the
   * sample row inserts one submission with no age-range or region reference,
   * one score and one 'completed' report request.
   */
  lemma SampleRowInserts(lk: Lookups, lib: Library, row: Row, u: Uuid, when: DateTime, key: int)
    requires IsSampleRow(row)
    requires lib.parseUuid(SampleId) == Some(u)
    requires lib.fromIsoFormat(SampleNaiveStamp) == Some(when)
    requires lib.toInt("3") == Some(3)
    requires "Economic Management" in lk.indicators && lk.indicators["Economic Management"] == key
    ensures RowResultOf(lk, lib, Tables(map[], [], []), row) ==
      Insert(Submission(u, when, None, None, Some("0.42"), None, None, Some("a@b.com")),
             [SubmissionScore(u, key, 3)], Some(ReportRequest(u, CompletedStatus)))
  {
    assert ParseId(lib, row) == Some(u);
    SampleSubmission(lk, lib, row, u, when);
    SampleScores(lk, lib, row, u, key);
    SampleWantsReport();
  }

  /** A pass over the sample row alone, from an empty store, commits exactly those rows and counts one of each. */
  lemma SampleRunCommits(lk: Lookups, lib: Library, row: Row, u: Uuid, when: DateTime, key: int)
    requires IsSampleRow(row)
    requires lib.parseUuid(SampleId) == Some(u)
    requires lib.fromIsoFormat(SampleNaiveStamp) == Some(when)
    requires lib.toInt("3") == Some(3)
    requires "Economic Management" in lk.indicators && lk.indicators["Economic Management"] == key
    ensures var sub := Submission(u, when, None, None, Some("0.42"), None, None, Some("a@b.com"));
      LoadRows(lk, lib, Tables(map[], [], []), [row]) ==
        Completed(Tables(map[u := sub], [SubmissionScore(u, key, 3)], [ReportRequest(u, CompletedStatus)]), 1, 1)
  {
    var empty := Tables(map[], [], []);
    SampleRowInserts(lk, lib, row, u, when, key);
    LoadSingle(StepOf(lk, lib), empty, row);
    var sub := Submission(u, when, None, None, Some("0.42"), None, None, Some("a@b.com"));
    assert Apply(empty, StepOf(lk, lib)(empty, row)) ==
      Tables(map[u := sub], [SubmissionScore(u, key, 3)], [ReportRequest(u, CompletedStatus)]);
  }
}
