/**
 * First-start seeding in `create_database`: when the analyzers table is
 * empty, two analyzers and three example tests are inserted; otherwise the
 * database is left as it is. The tests are attached to analyzer id 1 as a
 * constant, not to the id the first INSERT produced.
 */
module Seeding {
  import opened Table
  import opened Schema
  import opened TestCatalog

  const SeedAnalyzers: seq<Analyzer> := [Analyzer("Analyzer 1"), Analyzer("Analyzer 2")]

  /** The example tests, ranges in thousandths (0.5 to 5.0 mmol/l is 500 to 5000). */
  const SeedTests: seq<TestSpec> := [
    TestSpec("Test_1", "mmol/l", 500, 5000),
    TestSpec("Photo_reflex_test", "mmol/l", 1000, 5500),
    TestSpec("Photometric_test", "mmol/l", 50, 1200)
  ]

  /** The analyzer id the example tests are written with. */
  const SeedOwner: nat := 1

  /** The seeding step of `create_database`, guarded by
      `SELECT COUNT(*) FROM analyzers`. Only the analyzers and tests tables
      can change, and afterwards there is at least one analyzer. */
  function CreateDatabase(db: Db): (r: Db)
    ensures |db.analyzers.rows| > 0 ==> r == db
    ensures r == db.(analyzers := r.analyzers, tests := r.tests)
    ensures |r.analyzers.rows| > 0
  {
    if |db.analyzers.rows| > 0 then db
    else
      InsertAllSpec(db.analyzers, SeedAnalyzers);
      db.(analyzers := InsertAll(db.analyzers, SeedAnalyzers), tests := InsertAll(db.tests, Defs(SeedOwner, SeedTests)))
  }

  /** Starting the program again does not seed again. */
  lemma CreateDatabaseIdempotent(db: Db)
    ensures CreateDatabase(CreateDatabase(db)) == CreateDatabase(db)
  {
  }

  /** Seeding an empty analyzers table appends the two analyzers under the
      next ids and keeps the tables well formed. */
  lemma SeedingAnalyzers(db: Db)
    requires |db.analyzers.rows| == 0
    ensures var r := CreateDatabase(db);
      && r.analyzers.rows == [Row(db.analyzers.next, SeedAnalyzers[0]), Row(db.analyzers.next + 1, SeedAnalyzers[1])]
      && (WellFormed(db) ==> WellFormed(r))
  {
    InsertAllSpec(db.analyzers, SeedAnalyzers);
    InsertAllSpec(db.tests, Defs(SeedOwner, SeedTests));
  }

  /** Inserting the example tests appends them to analyzer 1's list. */
  lemma SeedDefsAppended(t: Table<TestDef>)
    ensures GetTests(InsertAll(t, Defs(SeedOwner, SeedTests)), SeedOwner) == GetTests(t, SeedOwner) + SeedTests
  {
    var added := Fresh(t.next, Defs(SeedOwner, SeedTests));
    var before := TestsOf(t.rows, SeedOwner);
    InsertAllSpec(t, Defs(SeedOwner, SeedTests));
    assert InsertAll(t, Defs(SeedOwner, SeedTests)).rows == t.rows + added;
    WhereAppend(t.rows, added, OfAnalyzer(SeedOwner));
    FreshDefs(t.next, SeedOwner, SeedTests);
    WhereKeepsAll(added, OfAnalyzer(SeedOwner));
    assert TestsOf(t.rows + added, SeedOwner) == before + added;
    SpecsAppend(before, added);
  }

  /** Seeding an empty analyzers table appends the example tests to the
      list of analyzer 1, whatever that list held. */
  lemma SeedingTests(db: Db)
    requires |db.analyzers.rows| == 0
    ensures GetTests(CreateDatabase(db).tests, SeedOwner) == GetTests(db.tests, SeedOwner) + SeedTests
  {
    SeedDefsAppended(db.tests);
  }

  /** Seeding leaves the tests of every analyzer other than 1 alone. */
  lemma SeedingKeepsOthers(db: Db, b: nat)
    requires b != SeedOwner
    ensures TestsOf(CreateDatabase(db).tests.rows, b) == TestsOf(db.tests.rows, b)
  {
    var added := Fresh(db.tests.next, Defs(SeedOwner, SeedTests));
    InsertAllSpec(db.tests, Defs(SeedOwner, SeedTests));
    WhereAppend(db.tests.rows, added, OfAnalyzer(b));
    WhereDropsAll(added, OfAnalyzer(b));
  }

  /** On the very first start the analyzers get ids 1 and 2, so the example
      tests belong to "Analyzer 1", and they are its whole list. */
  lemma FirstStart()
    ensures var r := CreateDatabase(EmptyDb());
      && r.analyzers.rows == [Row(1, Analyzer("Analyzer 1")), Row(2, Analyzer("Analyzer 2"))]
      && GetTests(r.tests, 1) == SeedTests
      && GetTests(r.tests, 2) == []
      && WellFormed(r)
  {
    var db := EmptyDb();
    SeedingAnalyzers(db);
    SeedingTests(db);
    SeedingKeepsOthers(db, 2);
    assert GetTests(db.tests, 1) == [];
  }
}
