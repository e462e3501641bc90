/**
 * The result ledger: marking results as sent to the LIS (`send_results`),
 * and the read side (`get_sample_results`, `load_sample_results`), which joins
 * a sample's results with their test definitions and derives the abnormal
 * flag from the joined row on every read.
 */
module ResultLedger {
  import opened Table
  import opened Schema
  import opened TestCatalog
  import opened ResultSynthesizer

  // ---------------------------------------------------------- send_results

  /** `UPDATE results SET sent = 1 WHERE id = ?`. */
  function MarkSent(rows: seq<Row<Result>>, id: nat): seq<Row<Result>> {
    seq(|rows|, i requires 0 <= i < |rows| =>
      if rows[i].id == id then Row(id, rows[i].val.(sent := true)) else rows[i])
  }

  /** `send_results`: one UPDATE per listed id, in order (an empty list
      returns before opening the database). */
  function SendResults(t: Table<Result>, ids: seq<nat>): Table<Result>
    decreases |ids|
  {
    if |ids| == 0 then t else SendResults(Table(MarkSent(t.rows, ids[0]), t.next), ids[1..])
  }

  /** Exactly the listed results become sent; no other row or column
      changes, and an empty list changes nothing. */
  lemma {:induction false} SendResultsSpec(t: Table<Result>, ids: seq<nat>)
    ensures var r := SendResults(t, ids);
      && r.next == t.next
      && |r.rows| == |t.rows|
      && (forall i | 0 <= i < |t.rows| ::
            && r.rows[i].id == t.rows[i].id
            && r.rows[i].val.sent == (t.rows[i].val.sent || t.rows[i].id in ids)
            && r.rows[i].val == t.rows[i].val.(sent := r.rows[i].val.sent))
      && (ids == [] ==> r == t)
    decreases |ids|
  {
    if |ids| > 0 {
      var t1 := Table(MarkSent(t.rows, ids[0]), t.next);
      SendResultsSpec(t1, ids[1..]);
      assert forall id :: id in ids <==> id == ids[0] || id in ids[1..];
    }
  }

  /** Sending is idempotent: sending the same ids again changes nothing. */
  lemma SendResultsIdempotent(t: Table<Result>, ids: seq<nat>)
    ensures SendResults(SendResults(t, ids), ids) == SendResults(t, ids)
  {
    var r1 := SendResults(t, ids);
    var r2 := SendResults(r1, ids);
    SendResultsSpec(t, ids);
    SendResultsSpec(r1, ids);
    assert r2.rows == r1.rows by {
      forall i | 0 <= i < |r1.rows| ensures r2.rows[i] == r1.rows[i] {
        assert r2.rows[i].val == r1.rows[i].val;
      }
    }
  }

  /** Sending keeps the table's primary-key guarantees and, since no key
      column changes, the one-result-per-pair invariant. */
  lemma SendResultsKeepsInvariants(t: Table<Result>, ids: seq<nat>)
    ensures Valid(t) ==> Valid(SendResults(t, ids))
    ensures UniqueKeys(t.rows, PairOf) ==> UniqueKeys(SendResults(t, ids).rows, PairOf)
  {
    var r := SendResults(t, ids);
    SendResultsSpec(t, ids);
    assert forall i | 0 <= i < |t.rows| :: r.rows[i].id == t.rows[i].id && PairOf(r.rows[i].val) == PairOf(t.rows[i].val);
    assert forall x | x in r.rows :: exists i :: 0 <= i < |r.rows| && r.rows[i] == x;
  }

  // ---------------------------------------------------- get_sample_results

  /** One row of `SELECT r.id, t.test_code, r.result_value, t.unit,
      t.lower_range, t.upper_range, r.sent FROM results r JOIN tests t ...`. */
  datatype ResultView = ResultView(
    resultId: nat, testCode: string, value: Milli, unit: string,
    lower: Milli, upper: Milli, sent: bool)

  function ViewOf(r: Row<Result>, t: Row<TestDef>): ResultView {
    ResultView(r.id, t.val.code, r.val.value, t.val.unit, t.val.lower, t.val.upper, r.val.sent)
  }

  /** The join of one result with the tests whose id it references. */
  function JoinTests(r: Row<Result>, tests: seq<Row<TestDef>>): seq<ResultView> {
    if |tests| == 0 then []
    else (if tests[0].id == r.val.testId then [ViewOf(r, tests[0])] else []) + JoinTests(r, tests[1..])
  }

  /** The joined rows of the results with `sample_id = sid`. */
  function SampleResults(results: seq<Row<Result>>, tests: seq<Row<TestDef>>, sid: nat): seq<ResultView> {
    if |results| == 0 then []
    else
      var own := if results[0].val.sampleId == sid then JoinTests(results[0], tests) else [];
      own + SampleResults(results[1..], tests, sid)
  }

  /** `get_sample_results(sid)`. */
  function GetSampleResults(db: Db, sid: nat): seq<ResultView> {
    SampleResults(db.results.rows, db.tests.rows, sid)
  }

  /** v is the join of a result of sample sid with the test it references. */
  predicate Joined(results: seq<Row<Result>>, tests: seq<Row<TestDef>>, sid: nat, v: ResultView) {
    exists r, t | r in results && t in tests :: r.val.sampleId == sid && t.id == r.val.testId && v == ViewOf(r, t)
  }

  /** The join of a result holds a view for each test row with the id it
      references and no other view; since test ids are a primary key, there
      is at most one. */
  lemma {:induction false} JoinTestsMembers(r: Row<Result>, tests: seq<Row<TestDef>>)
    ensures forall v | v in JoinTests(r, tests) :: exists t | t in tests :: t.id == r.val.testId && v == ViewOf(r, t)
    ensures forall t | t in tests && t.id == r.val.testId :: ViewOf(r, t) in JoinTests(r, tests)
    ensures Ascending(tests) ==> |JoinTests(r, tests)| <= 1
  {
    if |tests| > 0 {
      JoinTestsMembers(r, tests[1..]);
      assert forall t | t in tests :: t == tests[0] || t in tests[1..];
      if Ascending(tests) {
        AscendingTail(tests);
        if tests[0].id == r.val.testId {
          JoinTestsMiss(r, tests[1..]);
        }
      }
    }
  }

  /** A result whose test id no test row carries joins to nothing. */
  lemma {:induction false} JoinTestsMiss(r: Row<Result>, tests: seq<Row<TestDef>>)
    requires forall t | t in tests :: t.id != r.val.testId
    ensures JoinTests(r, tests) == []
  {
    if |tests| > 0 {
      assert tests[0] in tests;
      JoinTestsMiss(r, tests[1..]);
    }
  }

  /** `get_sample_results` returns at most one row per stored result. */
  lemma {:induction false} SampleResultsAtMostOne(results: seq<Row<Result>>, tests: seq<Row<TestDef>>, sid: nat)
    requires Ascending(tests)
    ensures |SampleResults(results, tests, sid)| <= |results|
  {
    if |results| > 0 {
      JoinTestsMembers(results[0], tests);
      SampleResultsAtMostOne(results[1..], tests, sid);
    }
  }

  /** The read returns exactly the joins of sample sid's results with their
      tests: nothing of another sample, and nothing for a result whose test
      row no longer exists. */
  lemma {:induction false} SampleResultsMembers(results: seq<Row<Result>>, tests: seq<Row<TestDef>>, sid: nat)
    ensures forall v | v in SampleResults(results, tests, sid) :: Joined(results, tests, sid, v)
    ensures forall r, t | r in results && t in tests && r.val.sampleId == sid && t.id == r.val.testId ::
      ViewOf(r, t) in SampleResults(results, tests, sid)
  {
    if |results| > 0 {
      SampleResultsMembers(results[1..], tests, sid);
      JoinTestsMembers(results[0], tests);
      assert forall r | r in results :: r == results[0] || r in results[1..];
      forall v | v in SampleResults(results, tests, sid) ensures Joined(results, tests, sid, v) {
        if v in SampleResults(results[1..], tests, sid) {
          var r, t :| r in results[1..] && t in tests && r.val.sampleId == sid && t.id == r.val.testId && v == ViewOf(r, t);
          assert r in results;
        } else {
          assert results[0].val.sampleId == sid;
          var t :| t in tests && t.id == results[0].val.testId && v == ViewOf(results[0], t);
          assert results[0] in results;
        }
      }
    }
  }

  // ------------------------------------------------------------ abnormal

  /** The read-time abnormal flag: the value is outside the test's range. */
  predicate Abnormal(v: ResultView) {
    v.value < v.lower || v.value > v.upper
  }

  /** v is the view of a result written for the pair (sid, tid). */
  predicate ViewOfPair(results: seq<Row<Result>>, v: ResultView, sid: nat, tid: nat) {
    exists y | y in results :: y.id == v.resultId && PairOf(y.val) == (sid, tid)
  }

  /** A view of a result row for (sid, x.id) carries that result's value and
      flag and x's range. */
  lemma ViewOfPairFields(db: Db, sid: nat, x: Row<TestDef>, v: ResultView)
    requires WellFormed(db) && x in db.tests.rows
    requires v in GetSampleResults(db, sid) && ViewOfPair(db.results.rows, v, sid, x.id)
    ensures exists y | y in db.results.rows && PairOf(y.val) == (sid, x.id) :: v == ViewOf(y, x)
  {
    SampleResultsMembers(db.results.rows, db.tests.rows, sid);
    var r0, t0 :| r0 in db.results.rows && t0 in db.tests.rows && r0.val.sampleId == sid
      && t0.id == r0.val.testId && v == ViewOf(r0, t0);
    var y0 :| y0 in db.results.rows && y0.id == v.resultId && PairOf(y0.val) == (sid, x.id);
    IdsIdentifyRows(db.results, y0, r0);
    IdsIdentifyRows(db.tests, t0, x);
  }

  /** If every result of the pair (sid, x.id) is unsent and within x's
      range, so is every view of one, and its flag tells whether the range
      is reversed. */
  lemma WrittenViewFlag(db: Db, sid: nat, x: Row<TestDef>, v: ResultView)
    requires WellFormed(db) && x in db.tests.rows
    requires forall y | y in db.results.rows && PairOf(y.val) == (sid, x.id) ::
      !y.val.sent && Between(y.val.value, x.val.lower, x.val.upper)
    requires v in GetSampleResults(db, sid) && ViewOfPair(db.results.rows, v, sid, x.id)
    ensures !v.sent && (Abnormal(v) <==> x.val.lower > x.val.upper)
  {
    ViewOfPairFields(db, sid, x, v);
  }

  /** Reading a freshly generated result: it is shown unsent, and flagged
      abnormal exactly when its test's range is reversed (lower > upper,
      which the catalog does not reject); a well-ordered range never flags
      a generated value. The result is among the rows the read returns. */
  lemma GeneratedResultFlag(db: Db, analyzer: Option<nat>, numbers: seq<string>, rng: Rng,
                            k: nat, x: Row<TestDef>)
    requires WellFormed(db) && Uniform(rng)
    requires Generates(db, analyzer, numbers)
    requires k < |numbers| && x in db.tests.rows && x.val.analyzerId == analyzer.value
    ensures var sid := SampleIdOf(db.samples.rows, numbers[k]).value;
      var r := GenerateResults(db, analyzer, numbers, rng);
      && (exists v | v in GetSampleResults(r, sid) :: ViewOfPair(r.results.rows, v, sid, x.id))
      && forall v | v in GetSampleResults(r, sid) && ViewOfPair(r.results.rows, v, sid, x.id) ::
           !v.sent && (Abnormal(v) <==> x.val.lower > x.val.upper)
  {
    var sid := SampleIdOf(db.samples.rows, numbers[k]).value;
    var r := GenerateResults(db, analyzer, numbers, rng);
    GenerateResultsWrites(db, analyzer, numbers, rng, k, x);
    GenerateResultsFrame(db, analyzer, numbers, rng);
    assert WellFormed(r) && r.tests == db.tests;
    assert x in r.tests.rows;
    var y :| y in r.results.rows && PairOf(y.val) == (sid, x.id);
    SampleResultsMembers(r.results.rows, r.tests.rows, sid);
    assert ViewOf(y, x) in GetSampleResults(r, sid);
    assert ViewOfPair(r.results.rows, ViewOf(y, x), sid, x.id);
    forall v | v in GetSampleResults(r, sid) && ViewOfPair(r.results.rows, v, sid, x.id)
      ensures !v.sent && (Abnormal(v) <==> x.val.lower > x.val.upper)
    {
      WrittenViewFlag(r, sid, x, v);
    }
  }

  /** Replacing an analyzer's tests orphans the results that referenced
      them: the result rows stay in the table, but the inner join no longer
      returns them. */
  lemma OrphanedResultHidden(db: Db, a: nat, specs: seq<TestSpec>, y: Row<Result>, gone: Row<TestDef>)
    requires WellFormed(db)
    requires gone in db.tests.rows && gone.val.analyzerId == a
    requires y in db.results.rows && y.val.testId == gone.id
    ensures var db' := db.(tests := SaveTests(db.tests, a, specs));
      && y in db'.results.rows
      && forall v | v in GetSampleResults(db', y.val.sampleId) :: v.resultId != y.id
  {
    var db' := db.(tests := SaveTests(db.tests, a, specs));
    SaveTestsRetiresIds(db.tests, a, specs, gone);
    SampleResultsMembers(db'.results.rows, db'.tests.rows, y.val.sampleId);
    forall v | v in GetSampleResults(db', y.val.sampleId) ensures v.resultId != y.id {
      var r0, t0 :| r0 in db'.results.rows && t0 in db'.tests.rows && r0.val.sampleId == y.val.sampleId
        && t0.id == r0.val.testId && v == ViewOf(r0, t0);
      if v.resultId == y.id {
        IdsIdentifyRows(db.results, r0, y);
      }
    }
  }
}
