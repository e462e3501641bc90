/**
 * The per-analyzer test catalog: `get_tests` lists an analyzer's test
 * definitions, and `save_tests` / `save_templates` replace the whole set by
 * deleting every test of the analyzer and inserting the new ones.
 */
module TestCatalog {
  import opened Table
  import opened Schema

  /** A test as the catalog lists and saves it: code, unit and range. */
  datatype TestSpec = TestSpec(code: string, unit: string, lower: Milli, upper: Milli)

  /** The row condition `analyzer_id = a`. */
  function OfAnalyzer(a: nat): TestDef -> bool {
    (d: TestDef) => d.analyzerId == a
  }

  /** `SELECT ... FROM tests WHERE analyzer_id = a`, in rowid order. */
  function TestsOf(rows: seq<Row<TestDef>>, a: nat): (r: seq<Row<TestDef>>)
    ensures forall x | x in r :: x in rows && x.val.analyzerId == a
    ensures forall x | x in rows && x.val.analyzerId == a :: x in r
  {
    Where(rows, OfAnalyzer(a))
  }

  function SpecOf(d: TestDef): TestSpec {
    TestSpec(d.code, d.unit, d.lower, d.upper)
  }

  function DefOf(a: nat, s: TestSpec): TestDef {
    TestDef(a, s.code, s.unit, s.lower, s.upper)
  }

  /** Code, unit and range of each row, in order. */
  function Specs(rows: seq<Row<TestDef>>): seq<TestSpec> {
    seq(|rows|, i requires 0 <= i < |rows| => SpecOf(rows[i].val))
  }

  lemma SpecsAppend(a: seq<Row<TestDef>>, b: seq<Row<TestDef>>)
    ensures Specs(a + b) == Specs(a) + Specs(b)
  {
    assert forall i | 0 <= i < |b| :: (a + b)[|a| + i] == b[i];
  }

  /** `get_tests(a)`: code, unit and range of each of the analyzer's tests. */
  function GetTests(t: Table<TestDef>, a: nat): seq<TestSpec> {
    Specs(TestsOf(t.rows, a))
  }

  /** The rows `INSERT INTO tests (analyzer_id, ...)` writes for specs. */
  function Defs(a: nat, specs: seq<TestSpec>): seq<TestDef> {
    seq(|specs|, i requires 0 <= i < |specs| => DefOf(a, specs[i]))
  }

  /** Inserted definitions of analyzer a belong to a and list back as the
      specs they were made from. */
  lemma FreshDefs(n: nat, a: nat, specs: seq<TestSpec>)
    ensures forall x | x in Fresh(n, Defs(a, specs)) :: OfAnalyzer(a)(x.val)
    ensures Specs(Fresh(n, Defs(a, specs))) == specs
  {
    var added := Fresh(n, Defs(a, specs));
    forall x | x in added ensures OfAnalyzer(a)(x.val) {
      var i :| 0 <= i < |added| && added[i] == x;
    }
    assert forall i | 0 <= i < |specs| :: Specs(added)[i] == specs[i];
  }

  /** `save_tests(a, tests)`: delete every test of a, then insert the new
      ones in order. */
  function SaveTests(t: Table<TestDef>, a: nat, specs: seq<TestSpec>): Table<TestDef> {
    InsertAll(DeleteWhere(t, OfAnalyzer(a)), Defs(a, specs))
  }

  /** The rows `save_tests` leaves behind: the other analyzers' tests, then
      the new ones under added ids. */
  lemma SaveTestsRows(t: Table<TestDef>, a: nat, specs: seq<TestSpec>)
    ensures SaveTests(t, a, specs)
      == Table(Where(t.rows, Not(OfAnalyzer(a))) + Fresh(t.next, Defs(a, specs)), t.next + |specs|)
  {
    var defs := Defs(a, specs);
    InsertAllSpec(DeleteWhere(t, OfAnalyzer(a)), defs);
  }

  /** After `save_tests(a, specs)`, the tests of a are exactly specs, in order. */
  lemma SaveThenGetTests(t: Table<TestDef>, a: nat, specs: seq<TestSpec>)
    ensures GetTests(SaveTests(t, a, specs), a) == specs
  {
    var defs := Defs(a, specs);
    var kept := Where(t.rows, Not(OfAnalyzer(a)));
    var added := Fresh(t.next, defs);
    SaveTestsRows(t, a, specs);
    WhereAppend(kept, added, OfAnalyzer(a));
    WhereDropsAll(kept, OfAnalyzer(a));
    FreshDefs(t.next, a, specs);
    WhereKeepsAll(added, OfAnalyzer(a));
    assert TestsOf(SaveTests(t, a, specs).rows, a) == added;
  }

  /** `save_tests(a, ...)` leaves the tests of every other analyzer as they
      were, ids included. */
  lemma SaveTestsKeepsOthers(t: Table<TestDef>, a: nat, specs: seq<TestSpec>, b: nat)
    requires b != a
    ensures TestsOf(SaveTests(t, a, specs).rows, b) == TestsOf(t.rows, b)
  {
    var defs := Defs(a, specs);
    var kept := Where(t.rows, Not(OfAnalyzer(a)));
    var added := Fresh(t.next, defs);
    SaveTestsRows(t, a, specs);
    WhereAppend(kept, added, OfAnalyzer(b));
    WhereDropsAll(added, OfAnalyzer(b));
    WhereWhere(t.rows, Not(OfAnalyzer(a)), OfAnalyzer(b));
  }

  /** The replaced tests' ids are retired: no row of the new table carries
      the id of a deleted test, since AUTOINCREMENT never reuses an id. */
  lemma SaveTestsRetiresIds(t: Table<TestDef>, a: nat, specs: seq<TestSpec>, gone: Row<TestDef>)
    requires Valid(t)
    requires gone in t.rows && gone.val.analyzerId == a
    ensures Valid(SaveTests(t, a, specs))
    ensures forall y | y in SaveTests(t, a, specs).rows :: y.id != gone.id
  {
    var defs := Defs(a, specs);
    var kept := Where(t.rows, Not(OfAnalyzer(a)));
    SaveTestsRows(t, a, specs);
    InsertAllSpec(DeleteWhere(t, OfAnalyzer(a)), defs);
    forall y | y in SaveTests(t, a, specs).rows ensures y.id != gone.id {
      if y in kept {
        if y.id == gone.id {
          IdsIdentifyRows(t, y, gone);
        }
      } else {
        var k :| 0 <= k < |defs| && Fresh(t.next, defs)[k] == y;
      }
    }
  }

  // --------------------------------------------------------- save_templates

  /** One row of the test table widget: code and unit text, and what
      `float()` makes of the two range cells (None when it raises). */
  datatype TestEntry = TestEntry(code: string, unit: string, lower: Option<Milli>, upper: Option<Milli>)

  predicate Parses(e: TestEntry) {
    e.lower.Some? && e.upper.Some?
  }

  /** The entries as tests, or None as soon as one range cell fails to parse. */
  function ParseEntries(entries: seq<TestEntry>): (r: Option<seq<TestSpec>>)
    ensures r.None? <==> exists i | 0 <= i < |entries| :: !Parses(entries[i])
    ensures r.Some? ==> |r.value| == |entries| && forall i | 0 <= i < |entries| ::
      r.value[i] == TestSpec(entries[i].code, entries[i].unit, entries[i].lower.value, entries[i].upper.value)
  {
    if |entries| == 0 then Some([])
    else
      var e := entries[0];
      match ParseEntries(entries[1..])
      case None =>
        assert exists i | 0 <= i < |entries| :: !Parses(entries[i]) by {
          var i :| 0 <= i < |entries[1..]| && !Parses(entries[1..][i]);
          assert entries[i + 1] == entries[1..][i];
        }
        None
      case Some(rest) =>
        if Parses(e) then
          var r := [TestSpec(e.code, e.unit, e.lower.value, e.upper.value)] + rest;
          assert forall i | 1 <= i < |entries| :: entries[i] == entries[1..][i - 1];
          Some(r)
        else None
  }

  /** `save_templates`: with an analyzer selected, replace its tests by the
      table's rows. A cell that fails to parse raises before the commit, so
      the DELETE is rolled back with the rest; the lower <= upper order of a
      range is not checked. Only the tests table can change. */
  function SaveTemplates(db: Db, analyzer: Option<nat>, entries: seq<TestEntry>): (r: Db)
    ensures !Selected(analyzer) ==> r == db
    ensures (exists i | 0 <= i < |entries| :: !Parses(entries[i])) ==> r == db
    ensures r == db.(tests := r.tests)
    ensures Selected(analyzer) && (forall i | 0 <= i < |entries| :: Parses(entries[i])) ==>
      && |GetTests(r.tests, analyzer.value)| == |entries|
      && forall i | 0 <= i < |entries| :: GetTests(r.tests, analyzer.value)[i]
           == TestSpec(entries[i].code, entries[i].unit, entries[i].lower.value, entries[i].upper.value)
    // the DELETE is limited to the selected analyzer
    ensures Selected(analyzer) ==> forall b | b != analyzer.value :: TestsOf(r.tests.rows, b) == TestsOf(db.tests.rows, b)
  {
    if !Selected(analyzer) then db
    else match ParseEntries(entries)
      case None => db
      case Some(specs) =>
        SaveThenGetTests(db.tests, analyzer.value, specs);
        assert forall b | b != analyzer.value :: TestsOf(SaveTests(db.tests, analyzer.value, specs).rows, b) == TestsOf(db.tests.rows, b) by {
          forall b | b != analyzer.value ensures TestsOf(SaveTests(db.tests, analyzer.value, specs).rows, b) == TestsOf(db.tests.rows, b) {
            SaveTestsKeepsOthers(db.tests, analyzer.value, specs, b);
          }
        }
        db.(tests := SaveTests(db.tests, analyzer.value, specs))
  }
}
