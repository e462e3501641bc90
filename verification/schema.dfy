/**
 * The simulator's database `analyzersim.db`: the five tables the engine reads
 * and writes, each a `Table.Table` of the row payloads below (the id column
 * lives in `Table.Row`). Reals are kept as integers counting thousandths of
 * the unit; every result value is rounded to three decimals, so this is exact
 * for them, and the reference ranges are assumed to be multiples of 0.001.
 */
module Schema {
  import opened Table

  /** A quantity in thousandths of its unit (0.5 mmol/l is 500). */
  type Milli = int

  /** `analyzers(id, name UNIQUE)`. */
  datatype Analyzer = Analyzer(name: string)

  /** `connection_settings(id, analyzer_id, ...)`: every column as the form
      writes it (text columns verbatim, the two check boxes as 0/1). */
  datatype Settings = Settings(
    analyzerId: nat,
    connectionType: string,
    socketType: string,
    analyzerAddress: string,
    analyzerPort: string,
    lisAddress: string,
    lisPort: string,
    serialPort: string,
    baudRate: string,
    dataBits: string,
    stopBits: string,
    parity: string,
    autoResultSending: int,
    requestSampleInfo: int,
    sampleIdDelay: string,
    resultSendingDelay: string)

  /** `tests(id, analyzer_id, test_code, unit, lower_range, upper_range)`. */
  datatype TestDef = TestDef(analyzerId: nat, code: string, unit: string, lower: Milli, upper: Milli)

  /** `samples(id, sample_number, patient_id, patient_name, date_time)`; the
      timestamp is an abstract clock reading (later is larger). */
  datatype Sample = Sample(sampleNumber: string, patientId: string, patientName: string, dateTime: int)

  /** `results(id, sample_id, test_id, result_value, sent)`. */
  datatype Result = Result(sampleId: nat, testId: nat, value: Milli, sent: bool)

  /** The database; the `astm_templates` table is never written by the engine
      and is not part of the state. */
  datatype Db = Db(
    analyzers: Table<Analyzer>,
    settings: Table<Settings>,
    tests: Table<TestDef>,
    samples: Table<Sample>,
    results: Table<Result>)

  /** Every table keeps SQLite's primary-key guarantees. */
  predicate WellFormed(db: Db) {
    && Valid(db.analyzers)
    && Valid(db.settings)
    && Valid(db.tests)
    && Valid(db.samples)
    && Valid(db.results)
  }

  /** The database `CREATE TABLE IF NOT EXISTS` produces on first start. */
  function EmptyDb(): (db: Db)
    ensures WellFormed(db)
    ensures |db.analyzers.rows| == 0 && |db.tests.rows| == 0 && |db.samples.rows| == 0
  {
    Db(Empty(), Empty(), Empty(), Empty(), Empty())
  }

  /** The analyzer combo box's current data. The source tests it with
      `if not analyzer_id`, so neither an empty combo (None) nor id 0 counts
      as a selection. */
  predicate Selected(analyzer: Option<nat>) {
    analyzer.Some? && analyzer.value != 0
  }

  // Lookup keys of the upserting statements.

  function SampleNumberOf(s: Sample): string { s.sampleNumber }

  function SettingsOwner(s: Settings): nat { s.analyzerId }

  function PairOf(r: Result): (nat, nat) { (r.sampleId, r.testId) }
}
