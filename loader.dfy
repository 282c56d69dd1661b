/**
 * The loader run itself: a store whose three tables are updated in place,
 * one row at a time, inside a single transaction that is committed after the
 * last row or rolled back to its starting state when a row raises.
 */
module Loader {
  import opened Wrappers
  import opened Schema
  import opened LookupCache
  import opened RowMapper
  import opened Batch

  /** What processing one row reports back to the run. */
  datatype RowOutcome = Skipped(reason: SkipReason) | Inserted(scoresAdded: nat) | Fatal(error: LoadError)

  /** What a run ends with: the commit and its counters, or the rollback and its error. */
  datatype RunSummary = Committed(submissionsLoaded: nat, scoresLoaded: nat) | RolledBack(error: LoadError)

  function OutcomeOf(r: RowResult): RowOutcome {
    match r
    case Skip(reason) => Skipped(reason)
    case Insert(_, ss, _) => Inserted(|ss|)
    case Abort(e) => Fatal(e)
  }

  /** `xs` followed by the scores of `r`, or the error of `r`. */
  function Prepend(xs: seq<SubmissionScore>, r: Result<seq<SubmissionScore>, LoadError>): Result<seq<SubmissionScore>, LoadError> {
    match r
    case Success(ys) => Success(xs + ys)
    case Failure(e) => Failure(e)
  }

  lemma PrependNothing(r: Result<seq<SubmissionScore>, LoadError>)
    ensures Prepend([], r) == r
  {
    match r
    case Success(ys) => assert [] + ys == ys;
    case Failure(_) =>
  }

  lemma PrependTwice(xs: seq<SubmissionScore>, ys: seq<SubmissionScore>, r: Result<seq<SubmissionScore>, LoadError>)
    ensures Prepend(xs, Prepend(ys, r)) == Prepend(xs + ys, r)
  {
    match r
    case Success(zs) => assert xs + (ys + zs) == xs + ys + zs;
    case Failure(_) =>
  }

  class Store {
    var submissions: map<Uuid, Submission>
    var scores: seq<SubmissionScore>
    var requests: seq<ReportRequest>

    /** The lookup tables, which the loader only reads. */
    const ageRangeTable: seq<LookupRow>
    const regionTable: seq<LookupRow>
    const indicatorTable: seq<LookupRow>

    constructor (ageRanges: seq<LookupRow>, regions: seq<LookupRow>, indicators: seq<LookupRow>, initial: Tables)
      ensures Contents() == initial
      ensures ageRangeTable == ageRanges && regionTable == regions && indicatorTable == indicators
    {
      submissions, scores, requests := initial.submissions, initial.scores, initial.requests;
      ageRangeTable, regionTable, indicatorTable := ageRanges, regions, indicators;
    }

    /** The three written tables as a value. */
    function Contents(): Tables
      reads this
    {
      Tables(submissions, scores, requests)
    }

    /** The three label-to-key caches, built once from the lookup tables. */
    function LookupMaps(): Lookups {
      BuildLookups(ageRangeTable, regionTable, indicatorTable)
    }

    /**
     * The inner loop over the five rate columns: inserts one score per
     * populated column, in mapping order, and returns how many it inserted,
     * or stops at the first column that raises.
     */
    method InsertScores(lib: Library, indicators: map<string, int>, id: Uuid, row: Row)
      returns (outcome: Result<nat, LoadError>)
      modifies this
      ensures submissions == old(submissions) && requests == old(requests)
      ensures match ScoresFor(lib, indicators, id, row, IndicatorMapping)
        case Success(ss) => outcome == Success(|ss|) && scores == old(scores) + ss
        case Failure(e) => outcome == Failure(e)
    {
      ghost var added: seq<SubmissionScore> := [];
      var count := 0;
      var i := 0;
      assert IndicatorMapping[0..] == IndicatorMapping;
      PrependNothing(ScoresFor(lib, indicators, id, row, IndicatorMapping));
      while i < |IndicatorMapping|
        invariant 0 <= i <= |IndicatorMapping|
        invariant submissions == old(submissions) && requests == old(requests)
        invariant scores == old(scores) + added && count == |added|
        invariant ScoresFor(lib, indicators, id, row, IndicatorMapping) ==
          Prepend(added, ScoresFor(lib, indicators, id, row, IndicatorMapping[i..]))
      {
        var (column, name) := IndicatorMapping[i];
        assert IndicatorMapping[i..][0] == (column, name);
        assert IndicatorMapping[i..][1..] == IndicatorMapping[i + 1..];
        if column !in row {
          return Failure(MissingColumn(column));
        }
        var cell := row[column];
        if cell.Some? {
          if name !in indicators {
            return Failure(UnknownIndicator(name));
          }
          var value := lib.toInt(cell.value);
          if value.None? {
            return Failure(BadScore(column, cell.value));
          }
          var score := SubmissionScore(id, indicators[name], value.value);
          PrependTwice(added, [score], ScoresFor(lib, indicators, id, row, IndicatorMapping[i + 1..]));
          scores := scores + [score];
          added := added + [score];
          count := count + 1;
        }
        i := i + 1;
      }
      assert IndicatorMapping[i..] == [];
      assert added + [] == added;
      return Success(count);
    }

    /**
     * Processes one row: the id check, the submission insert or the
     * duplicate skip, the score inserts and the report request. When it
     * reports `Fatal`, whatever it has written is left for the caller to
     * roll back.
     */
    method ProcessRow(lk: Lookups, lib: Library, row: Row, ghost expected: RowResult) returns (outcome: RowOutcome)
      requires expected == StepOf(lk, lib)(Contents(), row)
      modifies this
      ensures outcome == OutcomeOf(expected)
      ensures !outcome.Fatal? ==> Contents() == Apply(old(Contents()), expected)
    {
      var parsed := ParseId(lib, row);
      if parsed.None? {
        return Skipped(InvalidId);
      }
      var id := parsed.value;
      var built := BuildSubmission(lk, lib, id, row);
      if built.Failure? {
        return Fatal(built.error);
      }
      if id in submissions {
        return Skipped(DuplicateId);
      }
      var sub := built.value;
      assert sub.id == id;
      submissions := submissions[id := sub];
      var inserted := InsertScores(lib, lk.indicators, id, row);
      if inserted.Failure? {
        return Fatal(inserted.error);
      }
      if WantsReport(sub.email) {
        requests := requests + [ReportRequest(id, CompletedStatus)];
      }
      return Inserted(inserted.value);
    }

    /**
     * One turn of the loop over the rows: processes `rows[i]` and moves the
     * two counters on; the pass from here on is the pass from the next row,
     * unless this row raised.
     */
    method ApplyRow(lk: Lookups, lib: Library, rows: seq<Row>, i: nat, loaded: nat, scored: nat)
      returns (outcome: RowOutcome, loaded': nat, scored': nat)
      requires i < |rows|
      modifies this
      ensures outcome.Fatal? ==>
                LoadFrom(StepOf(lk, lib), old(Contents()), rows[i..], loaded, scored) == Failed(outcome.error)
      ensures !outcome.Fatal? ==>
                LoadFrom(StepOf(lk, lib), old(Contents()), rows[i..], loaded, scored) ==
                LoadFrom(StepOf(lk, lib), Contents(), rows[i + 1..], loaded', scored')
    {
      ghost var before := Contents();
      ghost var expected := StepOf(lk, lib)(before, rows[i]);
      outcome := ProcessRow(lk, lib, rows[i], expected);
      assert rows[i..][0] == rows[i] && rows[i..][1..] == rows[i + 1..];
      LoadFromFirst(StepOf(lk, lib), before, rows[i..], loaded, scored, expected);
      loaded', scored' := loaded, scored;
      if outcome.Inserted? {
        loaded', scored' := loaded + 1, scored + outcome.scoresAdded;
      }
    }

    /**
     * The loop over the rows: processes them in order, counting the
     * submissions and scores loaded, and stops at the first row that raises,
     * leaving what it wrote so far in place.
     */
    method ApplyRows(lk: Lookups, lib: Library, rows: seq<Row>) returns (outcome: Result<(nat, nat), LoadError>)
      modifies this
      ensures match LoadRows(lk, lib, old(Contents()), rows)
        case Completed(t, loaded, scored) => Contents() == t && outcome == Success((loaded, scored))
        case Failed(e) => outcome == Failure(e)
    {
      ghost var goal := LoadRows(lk, lib, Contents(), rows);
      var loaded, scored := 0, 0;
      assert rows[0..] == rows;
      for i := 0 to |rows|
        invariant LoadFrom(StepOf(lk, lib), Contents(), rows[i..], loaded, scored) == goal
      {
        var rowOutcome;
        rowOutcome, loaded, scored := ApplyRow(lk, lib, rows, i, loaded, scored);
        if rowOutcome.Fatal? {
          return Failure(rowOutcome.error);
        }
      }
      assert rows[|rows|..] == [];
      return Success((loaded, scored));
    }

    /**
     * One loader run: builds the caches, applies the rows inside one
     * transaction, and commits the result, or restores the store it started
     * from when a row raised.
     */
    method Run(lib: Library, rows: seq<Row>) returns (summary: RunSummary)
      modifies this
      ensures match LoadRows(LookupMaps(), lib, old(Contents()), rows)
        case Completed(t, loaded, scored) => Contents() == t && summary == Committed(loaded, scored)
        case Failed(e) => Contents() == old(Contents()) && summary == RolledBack(e)
    {
      var lk := LookupMaps();
      var snapshot := Contents();
      var outcome := ApplyRows(lk, lib, rows);
      match outcome
      case Success((loaded, scored)) =>
        summary := Committed(loaded, scored);
      case Failure(e) =>
        submissions, scores, requests := snapshot.submissions, snapshot.scores, snapshot.requests;
        summary := RolledBack(e);
    }
  }
}
