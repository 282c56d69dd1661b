/**
 * The whole pass over the CSV rows, as a value: the rows are applied in order
 * inside one transaction, which either completes (and is committed with its
 * two counters) or fails on the first row that raises.
 */
module Batch {
  import opened Wrappers
  import opened Schema
  import opened RowMapper

  /** The outcome of a pass: the store it commits and its two counters, or what it raised. */
  datatype LoadResult =
    | Completed(tables: Tables, submissionsLoaded: nat, scoresLoaded: nat)
    | Failed(error: LoadError)

  /** What one row does to a store holding the given tables. */
  type RowStep = (Tables, Row) -> RowResult

  /** The loader's row step for the given caches and library. */
  function StepOf(lk: Lookups, lib: Library): RowStep {
    (t: Tables, row: Row) => RowResultOf(lk, lib, t, row)
  }

  /** Applies `rows` in order to a store holding `t`, the counters standing at `loaded` and `scored`. */
  function LoadFrom(step: RowStep, t: Tables, rows: seq<Row>, loaded: nat, scored: nat): LoadResult
    decreases |rows|
  {
    if rows == [] then Completed(t, loaded, scored)
    else
      var r := step(t, rows[0]);
      match r
      case Skip(_) => LoadFrom(step, t, rows[1..], loaded, scored)
      case Insert(_, ss, _) => LoadFrom(step, Apply(t, r), rows[1..], loaded + 1, scored + |ss|)
      case Abort(e) => Failed(e)
  }

  /** The loader's pass over `rows` from a store holding `t`, both counters starting at zero. */
  function LoadRows(lk: Lookups, lib: Library, t: Tables, rows: seq<Row>): LoadResult {
    LoadFrom(StepOf(lk, lib), t, rows, 0, 0)
  }

  /** Goes on with `rows` after a partial pass, unless that pass already failed. */
  function Continue(step: RowStep, r: LoadResult, rows: seq<Row>): LoadResult {
    match r
    case Completed(t, loaded, scored) => LoadFrom(step, t, rows, loaded, scored)
    case Failed(e) => Failed(e)
  }

  /** A pass goes through its first row, whose effect is `r`, then through the rest. */
  lemma LoadFromFirst(step: RowStep, t: Tables, rows: seq<Row>, loaded: nat, scored: nat, r: RowResult)
    requires rows != [] && r == step(t, rows[0])
    ensures r.Abort? ==> LoadFrom(step, t, rows, loaded, scored) == Failed(r.error)
    ensures r.Skip? ==> LoadFrom(step, t, rows, loaded, scored) == LoadFrom(step, t, rows[1..], loaded, scored)
    ensures r.Insert? ==>
              LoadFrom(step, t, rows, loaded, scored) ==
              LoadFrom(step, Apply(t, r), rows[1..], loaded + 1, scored + |r.scores|)
  {
  }

  /** A pass over one row that inserts commits that row's insert, counting it and its scores. */
  lemma LoadSingle(step: RowStep, t: Tables, row: Row)
    requires step(t, row).Insert?
    ensures LoadFrom(step, t, [row], 0, 0) == Completed(Apply(t, step(t, row)), 1, |step(t, row).scores|)
  {
    LoadFromFirst(step, t, [row], 0, 0, step(t, row));
    assert [row][1..] == [];
  }

  /** A pass over `a + b` is the pass over `a` followed by the pass over `b`. */
  lemma {:induction false} LoadConcat(step: RowStep, t: Tables, a: seq<Row>, b: seq<Row>, loaded: nat, scored: nat)
    ensures LoadFrom(step, t, a + b, loaded, scored) == Continue(step, LoadFrom(step, t, a, loaded, scored), b)
    decreases |a|
  {
    if a == [] {
      assert a + b == b;
    } else {
      assert (a + b)[0] == a[0] && (a + b)[1..] == a[1..] + b;
      var r := step(t, a[0]);
      match r
      case Skip(_) => LoadConcat(step, t, a[1..], b, loaded, scored);
      case Insert(_, ss, _) => LoadConcat(step, Apply(t, r), a[1..], b, loaded + 1, scored + |ss|);
      case Abort(_) =>
    }
  }

  /** A row with an invalid id is skipped silently: the pass is as if it were not there. */
  lemma InvalidRowIgnored(lk: Lookups, lib: Library, t: Tables, a: seq<Row>, row: Row, b: seq<Row>)
    requires ParseId(lib, row).None?
    ensures LoadRows(lk, lib, t, a + [row] + b) == LoadRows(lk, lib, t, a + b)
  {
    var step := StepOf(lk, lib);
    LoadConcat(step, t, a, [row] + b, 0, 0);
    LoadConcat(step, t, a, b, 0, 0);
    assert a + [row] + b == a + ([row] + b);
    match LoadFrom(step, t, a, 0, 0)
    case Completed(t', loaded, scored) =>
      assert ([row] + b)[0] == row && ([row] + b)[1..] == b;
      assert step(t', row) == Skip(InvalidId);
    case Failed(_) =>
  }

  /**
   * A row whose id an earlier row of the same pass already stored (or the
   * store held before), and whose submission fields evaluate, is skipped as a
   * duplicate: the pass is as if it were not there, however far back the
   * first row was.
   */
  lemma DuplicateRowIgnored(lk: Lookups, lib: Library, t: Tables, a: seq<Row>, row: Row, b: seq<Row>)
    requires LoadRows(lk, lib, t, a).Completed?
    requires ParseId(lib, row).Some? && ParseId(lib, row).value in LoadRows(lk, lib, t, a).tables.submissions
    requires BuildSubmission(lk, lib, ParseId(lib, row).value, row).Success?
    ensures LoadRows(lk, lib, t, a + [row] + b) == LoadRows(lk, lib, t, a + b)
  {
    var step := StepOf(lk, lib);
    var Completed(t', loaded, scored) := LoadFrom(step, t, a, 0, 0);
    LoadConcat(step, t, a, [row] + b, 0, 0);
    LoadConcat(step, t, a, b, 0, 0);
    assert a + [row] + b == a + ([row] + b);
    DuplicateSkipped(lk, lib, t', row);
    LoadFromFirst(step, t', [row] + b, loaded, scored, step(t', row));
    assert ([row] + b)[0] == row && ([row] + b)[1..] == b;
  }

  /**
   * All or nothing: when some row raises after the rows before it went
   * through, the whole pass fails with that error, whatever follows.
   */
  lemma AbortFailsRun(lk: Lookups, lib: Library, t: Tables, a: seq<Row>, row: Row, b: seq<Row>)
    requires LoadRows(lk, lib, t, a).Completed?
    requires RowResultOf(lk, lib, LoadRows(lk, lib, t, a).tables, row).Abort?
    ensures LoadRows(lk, lib, t, a + [row] + b) ==
      Failed(RowResultOf(lk, lib, LoadRows(lk, lib, t, a).tables, row).error)
  {
    LoadConcat(StepOf(lk, lib), t, a, [row] + b, 0, 0);
    assert a + [row] + b == a + ([row] + b);
    assert ([row] + b)[0] == row;
  }

  // ---------------------------------------------------------------------------
  // What every pass keeps, for any step that inserts fresh ids and own rows
  // ---------------------------------------------------------------------------

  /** The step inserts a submission only under an id not yet stored. */
  ghost predicate InsertsFresh(step: RowStep) {
    forall t, row :: step(t, row).Insert? ==> step(t, row).submission.id !in t.submissions
  }

  /** The scores and request the step inserts carry the id of the submission it inserts with them. */
  ghost predicate InsertsOwnRows(step: RowStep) {
    forall t, row :: step(t, row).Insert? ==> OwnRows(step(t, row))
  }

  predicate OwnRows(r: RowResult)
    requires r.Insert?
  {
    (forall k :: 0 <= k < |r.scores| ==> r.scores[k].submissionId == r.submission.id) &&
    (r.request.Some? ==> r.request.value.submissionId == r.submission.id)
  }

  /** `t'` holds every submission of `t` unchanged, and extends its scores and requests. */
  predicate Extends(t: Tables, t': Tables) {
    (forall id :: id in t.submissions ==> id in t'.submissions && t'.submissions[id] == t.submissions[id]) &&
    t.scores <= t'.scores && t.requests <= t'.requests
  }

  /** Inserting under a fresh id grows Submissions by one and only appends to the other tables. */
  lemma ApplyFresh(t: Tables, r: RowResult)
    requires r.Insert? && r.submission.id !in t.submissions
    ensures Extends(t, Apply(t, r))
    ensures |Apply(t, r).submissions| == |t.submissions| + 1
    ensures Apply(t, r).scores == t.scores + r.scores
  {
    var m := t.submissions;
    assert m[r.submission.id := r.submission].Keys == m.Keys + {r.submission.id};
  }

  lemma ExtendsTransitive(t0: Tables, t1: Tables, t2: Tables)
    requires Extends(t0, t1) && Extends(t1, t2)
    ensures Extends(t0, t2)
  {
  }

  /**
   * A completed pass only adds: every submission stored before keeps its key
   * and its row, and scores and requests are appended to.
   */
  lemma {:induction false} PassOnlyAdds(step: RowStep, t: Tables, rows: seq<Row>, loaded: nat, scored: nat)
    requires InsertsFresh(step)
    requires LoadFrom(step, t, rows, loaded, scored).Completed?
    ensures Extends(t, LoadFrom(step, t, rows, loaded, scored).tables)
    decreases |rows|
  {
    if rows == [] {
      assert Extends(t, t);
    } else {
      var r := step(t, rows[0]);
      if r.Skip? {
        PassOnlyAdds(step, t, rows[1..], loaded, scored);
      } else {
        ApplyFresh(t, r);
        PassOnlyAdds(step, Apply(t, r), rows[1..], loaded + 1, scored + |r.scores|);
        ExtendsTransitive(t, Apply(t, r), LoadFrom(step, t, rows, loaded, scored).tables);
      }
    }
  }

  /** The counters rise by exactly the number of submissions and of scores the pass added. */
  lemma {:induction false} PassCountsExactly(step: RowStep, t: Tables, rows: seq<Row>, loaded: nat, scored: nat)
    requires InsertsFresh(step)
    requires LoadFrom(step, t, rows, loaded, scored).Completed?
    ensures var res := LoadFrom(step, t, rows, loaded, scored);
      loaded <= res.submissionsLoaded && scored <= res.scoresLoaded &&
      |res.tables.submissions| == |t.submissions| + (res.submissionsLoaded - loaded) &&
      |res.tables.scores| == |t.scores| + (res.scoresLoaded - scored)
    decreases |rows|
  {
    if rows != [] {
      var r := step(t, rows[0]);
      if r.Skip? {
        PassCountsExactly(step, t, rows[1..], loaded, scored);
      } else {
        ApplyFresh(t, r);
        PassCountsExactly(step, Apply(t, r), rows[1..], loaded + 1, scored + |r.scores|);
      }
    }
  }

  /** Every score and request added by a pass refers to a stored submission, as before it. */
  lemma {:induction false} PassKeepsConsistent(step: RowStep, t: Tables, rows: seq<Row>, loaded: nat, scored: nat)
    requires InsertsOwnRows(step) && Consistent(t)
    requires LoadFrom(step, t, rows, loaded, scored).Completed?
    ensures Consistent(LoadFrom(step, t, rows, loaded, scored).tables)
    decreases |rows|
  {
    if rows != [] {
      var r := step(t, rows[0]);
      if r.Skip? {
        PassKeepsConsistent(step, t, rows[1..], loaded, scored);
      } else {
        var t1 := Apply(t, r);
        assert OwnRows(r);
        assert forall k :: 0 <= k < |t1.scores| ==>
          t1.scores[k] == if k < |t.scores| then t.scores[k] else r.scores[k - |t.scores|];
        assert forall k :: 0 <= k < |t1.requests| ==>
          t1.requests[k] == if k < |t.requests| then t.requests[k] else r.request.value;
        PassKeepsConsistent(step, t1, rows[1..], loaded + 1, scored + |r.scores|);
      }
    }
  }

  // ---------------------------------------------------------------------------
  // The loader's own step
  // ---------------------------------------------------------------------------

  lemma LoaderInsertsFresh(lk: Lookups, lib: Library)
    ensures InsertsFresh(StepOf(lk, lib))
  {
    forall t, row | StepOf(lk, lib)(t, row).Insert?
      ensures StepOf(lk, lib)(t, row).submission.id !in t.submissions
    {
      InsertedSubmission(lk, lib, t, row);
    }
  }

  lemma LoaderInsertsOwnRows(lk: Lookups, lib: Library)
    ensures InsertsOwnRows(StepOf(lk, lib))
  {
    forall t, row | StepOf(lk, lib)(t, row).Insert?
      ensures OwnRows(StepOf(lk, lib)(t, row))
    {
      InsertedScores(lk, lib, t, row);
      InsertedRequest(lk, lib, t, row);
    }
  }

  /**
   * A committed run only adds: every submission stored before keeps its row,
   * scores and requests are appended to, and the two counters equal the
   * number of submissions and of scores added.
   */
  lemma CommittedRunOnlyAdds(lk: Lookups, lib: Library, t: Tables, rows: seq<Row>)
    requires LoadRows(lk, lib, t, rows).Completed?
    ensures var Completed(t', loaded, scored) := LoadRows(lk, lib, t, rows);
      Extends(t, t') &&
      |t'.submissions| == |t.submissions| + loaded &&
      |t'.scores| == |t.scores| + scored
  {
    LoaderInsertsFresh(lk, lib);
    PassOnlyAdds(StepOf(lk, lib), t, rows, 0, 0);
    PassCountsExactly(StepOf(lk, lib), t, rows, 0, 0);
  }

  /** A committed run leaves no score or report request without its submission. */
  lemma CommittedRunConsistent(lk: Lookups, lib: Library, t: Tables, rows: seq<Row>)
    requires Consistent(t) && LoadRows(lk, lib, t, rows).Completed?
    ensures Consistent(LoadRows(lk, lib, t, rows).tables)
  {
    LoaderInsertsOwnRows(lk, lib);
    PassKeepsConsistent(StepOf(lk, lib), t, rows, 0, 0);
  }

  /**
   * Two rows with the same id: when the first is inserted, the second is
   * skipped as a duplicate (unless it raises first), so the pass leaves the
   * first row's data and counts one submission.
   */
  lemma RepeatedIdSkipped(lk: Lookups, lib: Library, t: Tables, first: Row, second: Row)
    requires RowResultOf(lk, lib, t, first).Insert?
    requires ParseId(lib, second) == ParseId(lib, first)
    requires BuildSubmission(lk, lib, ParseId(lib, second).value, second).Success?
    ensures var r := RowResultOf(lk, lib, t, first);
      LoadRows(lk, lib, t, [first, second]) == Completed(Apply(t, r), 1, |r.scores|)
  {
    var step := StepOf(lk, lib);
    var r := step(t, first);
    var t1 := Apply(t, r);
    InsertedSubmission(lk, lib, t, first);
    assert ParseId(lib, second).value in t1.submissions;
    DuplicateSkipped(lk, lib, t1, second);
    var s := step(t1, second);
    assert s == Skip(DuplicateId);
    LoadFromFirst(step, t, [first, second], 0, 0, r);
    assert [first, second][1..] == [second];
    LoadFromFirst(step, t1, [second], 1, |r.scores|, s);
    assert [second][1..] == [];
  }
}
