/**
 * Result synthesis (`generate_results`): for the selected analyzer, one
 * simulated measurement per (sample, test) pair, drawn from the test's
 * reference range. An existing result for the pair is overwritten and its
 * sent flag cleared; otherwise a new unsent result is inserted. The whole call
 * runs in one transaction: a sample number that is not stored makes
 * `fetchone()[0]` raise before the commit, so nothing is persisted.
 */
module ResultSynthesizer {
  import opened Table
  import opened Schema
  import opened TestCatalog

  function Min(a: int, b: int): int { if a <= b then a else b }

  function Max(a: int, b: int): int { if a <= b then b else a }

  /** v lies between the two bounds, in whichever order they come. */
  predicate Between(v: int, lo: int, hi: int) {
    Min(lo, hi) <= v <= Max(lo, hi)
  }

  /** The random source: rng(i, j, lo, hi) is the value
      `round(random.uniform(lo, hi), 3)` drawn for the i-th sample number of
      the batch and the j-th test of the analyzer. */
  type Rng = (nat, nat, Milli, Milli) -> Milli

  /** `random.uniform(lo, hi)` returns `lo + (hi - lo) * random()`, a value
      between the bounds even when hi < lo. */
  ghost predicate Uniform(rng: Rng) {
    forall i, j, lo, hi :: Between(rng(i, j, lo, hi), lo, hi)
  }

  // ------------------------------------------------------- sample lookup

  /** `SELECT id FROM samples WHERE sample_number = ?` then `fetchone()`. */
  function SampleIdOf(samples: seq<Row<Sample>>, number: string): (r: Option<nat>)
    ensures r.None? <==> !HasKey(samples, SampleNumberOf, number)
    ensures r.Some? ==> exists x | x in samples :: x.id == r.value && x.val.sampleNumber == number
  {
    match FirstWith(samples, SampleNumberOf, number)
    case None => None
    case Some(x) => Some(x.id)
  }

  /** The ids of all sample numbers, or None if one of them is not stored. */
  function Resolve(samples: seq<Row<Sample>>, numbers: seq<string>): (r: Option<seq<nat>>)
    ensures r.None? <==> exists k | 0 <= k < |numbers| :: !HasKey(samples, SampleNumberOf, numbers[k])
    ensures r.Some? ==> |r.value| == |numbers|
    ensures r.Some? ==> forall k | 0 <= k < |numbers| :: SampleIdOf(samples, numbers[k]) == Some(r.value[k])
  {
    if |numbers| == 0 then Some([])
    else
      assert forall k | 1 <= k < |numbers| :: numbers[k] == numbers[1..][k - 1];
      match SampleIdOf(samples, numbers[0])
      case None => None
      case Some(id) =>
        match Resolve(samples, numbers[1..])
        case None => None
        case Some(ids) => Some([id] + ids)
  }

  // --------------------------------------------------------------- draws

  /** The result written for the i-th sample and the j-th test. */
  function Draw(sids: seq<nat>, tests: seq<Row<TestDef>>, rng: Rng, i: nat, j: nat): Result
    requires i < |sids| && j < |tests|
  {
    Result(sids[i], tests[j].id, rng(i, j, tests[j].val.lower, tests[j].val.upper), false)
  }

  /** The results written for samples i.. of the batch, sample by sample and
      test by test, as the two nested loops write them. */
  function DrawsFrom(sids: seq<nat>, tests: seq<Row<TestDef>>, rng: Rng, i: nat): seq<Result>
    requires i <= |sids|
    decreases |sids| - i
  {
    if i == |sids| then []
    else
      seq(|tests|, j requires 0 <= j < |tests| => Draw(sids, tests, rng, i, j))
        + DrawsFrom(sids, tests, rng, i + 1)
  }

  /** DrawsFrom holds exactly the draws of samples i.. . */
  lemma {:induction false} DrawsFromMembers(sids: seq<nat>, tests: seq<Row<TestDef>>, rng: Rng, i0: nat)
    requires i0 <= |sids|
    ensures forall v | v in DrawsFrom(sids, tests, rng, i0) ::
      exists i, j | i0 <= i < |sids| && 0 <= j < |tests| :: v == Draw(sids, tests, rng, i, j)
    ensures forall i, j | i0 <= i < |sids| && 0 <= j < |tests| ::
      Draw(sids, tests, rng, i, j) in DrawsFrom(sids, tests, rng, i0)
    decreases |sids| - i0
  {
    if i0 < |sids| {
      DrawsFromMembers(sids, tests, rng, i0 + 1);
      var row := seq(|tests|, j requires 0 <= j < |tests| => Draw(sids, tests, rng, i0, j));
      assert DrawsFrom(sids, tests, rng, i0) == row + DrawsFrom(sids, tests, rng, i0 + 1);
      forall i, j | i0 <= i < |sids| && 0 <= j < |tests|
        ensures Draw(sids, tests, rng, i, j) in DrawsFrom(sids, tests, rng, i0)
      {
        if i == i0 {
          assert row[j] == Draw(sids, tests, rng, i, j);
        }
      }
      forall v | v in DrawsFrom(sids, tests, rng, i0)
        ensures exists i, j | i0 <= i < |sids| && 0 <= j < |tests| :: v == Draw(sids, tests, rng, i, j)
      {
        if v in row {
          var j :| 0 <= j < |tests| && row[j] == v;
          assert v == Draw(sids, tests, rng, i0, j);
        }
      }
    }
  }

  /** One more row of w: (k + 1) * w == w + k * w. */
  lemma MulSucc(k: nat, w: nat)
    ensures (k + 1) * w == w + k * w
  {
  }

  /** DrawsFrom holds |tests| draws per remaining sample. */
  lemma {:induction false} DrawsFromLength(sids: seq<nat>, tests: seq<Row<TestDef>>, rng: Rng, i0: nat)
    requires i0 <= |sids|
    ensures |DrawsFrom(sids, tests, rng, i0)| == (|sids| - i0) * |tests|
    decreases |sids| - i0
  {
    if i0 < |sids| {
      DrawsFromLength(sids, tests, rng, i0 + 1);
      MulSucc(|sids| - (i0 + 1), |tests|);
      assert |sids| - i0 == (|sids| - (i0 + 1)) + 1;
    }
  }

  /** Position j of block i of w entries, counting blocks from i0. */
  function Slot(i0: nat, i: nat, w: nat, j: nat): nat
    requires i0 <= i
  {
    (i - i0) * w + j
  }

  /** The draw of sample i and test j sits at position (i - i0) * |tests| + j. */
  lemma {:induction false} DrawAt(sids: seq<nat>, tests: seq<Row<TestDef>>, rng: Rng, i0: nat, i: nat, j: nat)
    requires i0 <= i < |sids| && j < |tests|
    ensures Slot(i0, i, |tests|, j) < |DrawsFrom(sids, tests, rng, i0)|
    ensures DrawsFrom(sids, tests, rng, i0)[Slot(i0, i, |tests|, j)] == Draw(sids, tests, rng, i, j)
    decreases i - i0
  {
    var w := |tests|;
    var row := seq(w, j requires 0 <= j < w => Draw(sids, tests, rng, i0, j));
    var rest := DrawsFrom(sids, tests, rng, i0 + 1);
    assert DrawsFrom(sids, tests, rng, i0) == row + rest;
    if i == i0 {
      assert row[j] == Draw(sids, tests, rng, i, j);
    } else {
      DrawAt(sids, tests, rng, i0 + 1, i, j);
      var k: nat := i - (i0 + 1);
      MulSucc(k, w);
      assert i - i0 == k + 1;
      assert Slot(i0, i, w, j) == w + Slot(i0 + 1, i, w, j);
    }
  }

  /** DrawsFrom writes sample by sample and, within a sample, test by test,
      as the two nested loops do: the draw of sample i and test j sits at
      position (i - i0) * |tests| + j. */
  lemma DrawsFromOrder(sids: seq<nat>, tests: seq<Row<TestDef>>, rng: Rng, i0: nat)
    requires i0 <= |sids|
    ensures |DrawsFrom(sids, tests, rng, i0)| == (|sids| - i0) * |tests|
    ensures forall i: nat, j: nat | i0 <= i < |sids| && j < |tests| ::
      && Slot(i0, i, |tests|, j) < |DrawsFrom(sids, tests, rng, i0)|
      && DrawsFrom(sids, tests, rng, i0)[Slot(i0, i, |tests|, j)] == Draw(sids, tests, rng, i, j)
  {
    DrawsFromLength(sids, tests, rng, i0);
    forall i: nat, j: nat | i0 <= i < |sids| && j < |tests|
      ensures && Slot(i0, i, |tests|, j) < |DrawsFrom(sids, tests, rng, i0)|
              && DrawsFrom(sids, tests, rng, i0)[Slot(i0, i, |tests|, j)] == Draw(sids, tests, rng, i, j)
    {
      DrawAt(sids, tests, rng, i0, i, j);
    }
  }

  /** The pair (s, t) is one the batch writes: s is one of its samples and
      t one of the analyzer's tests. */
  predicate InBatch(sids: seq<nat>, tests: seq<Row<TestDef>>, p: (nat, nat)) {
    p.0 in sids && exists x | x in tests :: x.id == p.1
  }

  /** The draws touch exactly the pairs of the batch. */
  lemma DrawsTouch(sids: seq<nat>, tests: seq<Row<TestDef>>, rng: Rng, p: (nat, nat))
    ensures Touches(DrawsFrom(sids, tests, rng, 0), PairOf, p) <==> InBatch(sids, tests, p)
  {
    var vs := DrawsFrom(sids, tests, rng, 0);
    DrawsFromMembers(sids, tests, rng, 0);
    if InBatch(sids, tests, p) {
      var i :| 0 <= i < |sids| && sids[i] == p.0;
      var x :| x in tests && x.id == p.1;
      var j :| 0 <= j < |tests| && tests[j] == x;
      assert PairOf(Draw(sids, tests, rng, i, j)) == p;
    }
    if Touches(vs, PairOf, p) {
      var v :| v in vs && PairOf(v) == p;
      var i, j :| 0 <= i < |sids| && 0 <= j < |tests| && v == Draw(sids, tests, rng, i, j);
      assert tests[j] in tests;
    }
  }

  // ----------------------------------------------------- generate_results

  /** The three guards of `generate_results` all pass: an analyzer is
      selected, it has tests, and every sample number is stored. */
  predicate Generates(db: Db, analyzer: Option<nat>, numbers: seq<string>) {
    && Selected(analyzer)
    && |TestsOf(db.tests.rows, analyzer.value)| > 0
    && Resolve(db.samples.rows, numbers).Some?
  }

  /** `generate_results`: upsert one drawn result per (sample, test) pair.
      If a guard fails the database is unchanged; only the results table
      can change. */
  function GenerateResults(db: Db, analyzer: Option<nat>, numbers: seq<string>, rng: Rng): (r: Db)
    ensures !Generates(db, analyzer, numbers) ==> r == db
    ensures r == db.(results := r.results)
  {
    if !Selected(analyzer) then db
    else
      var tests := TestsOf(db.tests.rows, analyzer.value);
      if |tests| == 0 then db
      else match Resolve(db.samples.rows, numbers)
        case None => db
        case Some(sids) => db.(results := UpsertAll(db.results, PairOf, DrawsFrom(sids, tests, rng, 0)))
  }

  /** Every draw is unsent and lies in the range of its test. */
  lemma DrawInRange(t: Table<TestDef>, a: nat, sids: seq<nat>, rng: Rng, v: Result, x: Row<TestDef>)
    requires Valid(t) && Uniform(rng)
    requires v in DrawsFrom(sids, TestsOf(t.rows, a), rng, 0)
    requires x in t.rows && v.testId == x.id
    ensures !v.sent && Between(v.value, x.val.lower, x.val.upper)
  {
    var tests := TestsOf(t.rows, a);
    DrawsFromMembers(sids, tests, rng, 0);
    var i, j :| 0 <= i < |sids| && 0 <= j < |tests| && v == Draw(sids, tests, rng, i, j);
    assert tests[j] in tests;
    IdsIdentifyRows(t, tests[j], x);
  }

  /** After a successful call, every (sample, test) pair of the batch has a
      result, and every result of such a pair is unsent and lies in the
      test's range. */
  lemma GenerateResultsWrites(db: Db, analyzer: Option<nat>, numbers: seq<string>, rng: Rng,
                              k: nat, x: Row<TestDef>)
    requires Valid(db.tests) && Uniform(rng)
    requires Generates(db, analyzer, numbers)
    requires k < |numbers| && x in db.tests.rows && x.val.analyzerId == analyzer.value
    ensures var sid := SampleIdOf(db.samples.rows, numbers[k]).value;
      var r := GenerateResults(db, analyzer, numbers, rng);
      && HasKey(r.results.rows, PairOf, (sid, x.id))
      && forall y | y in r.results.rows && PairOf(y.val) == (sid, x.id) ::
           !y.val.sent && Between(y.val.value, x.val.lower, x.val.upper)
  {
    GenerateResultsHasPair(db, analyzer, numbers, rng, k, x);
    GenerateResultsDrawn(db, analyzer, numbers, rng, k, x);
  }

  lemma GenerateResultsHasPair(db: Db, analyzer: Option<nat>, numbers: seq<string>, rng: Rng,
                               k: nat, x: Row<TestDef>)
    requires Generates(db, analyzer, numbers)
    requires k < |numbers| && x in db.tests.rows && x.val.analyzerId == analyzer.value
    ensures HasKey(GenerateResults(db, analyzer, numbers, rng).results.rows, PairOf,
                   (SampleIdOf(db.samples.rows, numbers[k]).value, x.id))
  {
    var tests := TestsOf(db.tests.rows, analyzer.value);
    var sids := Resolve(db.samples.rows, numbers).value;
    var vs := DrawsFrom(sids, tests, rng, 0);
    assert GenerateResults(db, analyzer, numbers, rng).results == UpsertAll(db.results, PairOf, vs);
    UpsertAllWrites(db.results, PairOf, vs);
    DrawsFromMembers(sids, tests, rng, 0);
    var j :| 0 <= j < |tests| && tests[j] == x;
    assert Draw(sids, tests, rng, k, j) in vs;
  }

  lemma GenerateResultsDrawn(db: Db, analyzer: Option<nat>, numbers: seq<string>, rng: Rng,
                             k: nat, x: Row<TestDef>)
    requires Valid(db.tests) && Uniform(rng)
    requires Generates(db, analyzer, numbers)
    requires k < |numbers| && x in db.tests.rows && x.val.analyzerId == analyzer.value
    ensures var sid := SampleIdOf(db.samples.rows, numbers[k]).value;
      forall y | y in GenerateResults(db, analyzer, numbers, rng).results.rows && PairOf(y.val) == (sid, x.id) ::
        !y.val.sent && Between(y.val.value, x.val.lower, x.val.upper)
  {
    var a := analyzer.value;
    var tests := TestsOf(db.tests.rows, a);
    var sids := Resolve(db.samples.rows, numbers).value;
    var vs := DrawsFrom(sids, tests, rng, 0);
    var results := UpsertAll(db.results, PairOf, vs);
    assert GenerateResults(db, analyzer, numbers, rng).results == results;
    UpsertAllWrites(db.results, PairOf, vs);
    DrawsFromMembers(sids, tests, rng, 0);
    var j :| 0 <= j < |tests| && tests[j] == x;
    var d := Draw(sids, tests, rng, k, j);
    assert d in vs && PairOf(d) == (sids[k], x.id);
    forall y | y in results.rows && PairOf(y.val) == (sids[k], x.id)
      ensures !y.val.sent && Between(y.val.value, x.val.lower, x.val.upper)
    {
      assert y.val in vs;
      DrawInRange(db.tests, a, sids, rng, y.val, x);
    }
  }

  /** A successful call leaves results outside the batch as they were, adds
      no such result, updates existing results in place, and never creates a
      second result for a (sample, test) pair. */
  lemma GenerateResultsFrame(db: Db, analyzer: Option<nat>, numbers: seq<string>, rng: Rng)
    requires Generates(db, analyzer, numbers)
    ensures var sids := Resolve(db.samples.rows, numbers).value;
      var tests := TestsOf(db.tests.rows, analyzer.value);
      var r := GenerateResults(db, analyzer, numbers, rng);
      && (forall y | y in db.results.rows && !InBatch(sids, tests, PairOf(y.val)) :: y in r.results.rows)
      && (forall y | y in r.results.rows && !InBatch(sids, tests, PairOf(y.val)) :: y in db.results.rows)
      && |db.results.rows| <= |r.results.rows|
      && (forall i | 0 <= i < |db.results.rows| ::
            r.results.rows[i].id == db.results.rows[i].id
            && PairOf(r.results.rows[i].val) == PairOf(db.results.rows[i].val))
      && (UniqueKeys(db.results.rows, PairOf) ==> UniqueKeys(r.results.rows, PairOf))
      && (WellFormed(db) ==> WellFormed(r))
  {
    var tests := TestsOf(db.tests.rows, analyzer.value);
    var sids := Resolve(db.samples.rows, numbers).value;
    var vs := DrawsFrom(sids, tests, rng, 0);
    UpsertAllFrame(db.results, PairOf, vs);
    forall p ensures Touches(vs, PairOf, p) <==> InBatch(sids, tests, p) {
      DrawsTouch(sids, tests, rng, p);
    }
  }
}
