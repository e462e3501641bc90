# Lab analyzer simulator: the simulation engine in Dafny

The lab analyzer simulator stands in for a clinical analyzer talking to a
laboratory information system (LIS). Its engine keeps everything in one
SQLite database, `analyzersim.db`. This project models that engine as pure
state transitions over an immutable database value and proves what each
transition promises. The engine is made of the following parts:

- **first-start seeding** (`create_database`);
- **connection settings:** one settings row per analyzer
  (`save_connection_settings`, `set_analyzer`), and which address and port
  fields are editable for a socket role (`toggle_socket_type`);
- **the test catalog:** `get_tests`, `save_tests` and `save_templates`, the
  last two replacing an analyzer's tests as a whole;
- **sample intake and the sample list:** `store_samples` and `get_samples`;
- **result synthesis:** `generate_results`;
- **the result ledger:** `get_sample_results` with its abnormal flag, and
  `send_results`;
- **an analysis run:** `start_analysis`, and the progress timer
  `update_progress`.

Modules, one per file:

| file | module | models |
|---|---|---|
| `table.dfy` | `Table` | A table is a sequence of rows in rowid order plus the AUTOINCREMENT counter. This file holds the statement patterns the engine uses: INSERT, DELETE ... WHERE, SELECT ... `fetchone()`, and the "UPDATE if a row has the key, else INSERT" upsert. |
| `schema.dfy` | `Schema` | The row types of the five tables the engine touches, and the database value. |
| `samples.dfy` | `SampleIntake` | `store_samples` and `get_samples`. |
| `catalog.dfy` | `TestCatalog` | `get_tests`, `save_tests` and `save_templates`. |
| `generation.dfy` | `ResultSynthesizer` | `generate_results`. |
| `ledger.dfy` | `ResultLedger` | `send_results`, `get_sample_results` and the abnormal flag. |
| `connection.dfy` | `ConnectionConfig` | `save_connection_settings`, loading the settings in `set_analyzer`, and `toggle_socket_type`. |
| `seed.dfy` | `Seeding` | The seeding guard in `create_database`. |
| `progress.dfy` | `AnalysisRun` | `start_analysis` and `update_progress`. |

How the inputs of the real program are represented:

- **Numbers.** Reference ranges and result values are integers counting
  thousandths. A 0.5 mmol/l bound is 500.
- **The clock.** `datetime.now()` becomes an integer timestamp passed in by
  the caller. Its fixed-width text format sorts the same way the integers
  do.
- **Randomness.** `random.uniform` becomes a function parameter `rng`. The
  ghost predicate `Uniform` constrains it to return a value between the two
  bounds. Like Python's `uniform`, it also works when the bounds come
  reversed.
- **The analyzer combo box.** It is an `Option<nat>`. The source tests it
  with `not analyzer_id`, so both None and id 0 count as "no analyzer
  selected".

### Behaviour of the code worth knowing

- **A missing sample in `generate_results`.** When a sample number has no
  stored row, `fetchone()[0]` raises before the commit
  (original.py:1068-1069), so the whole call persists nothing.
  `GenerateResults` models this as "database unchanged".
- **No validation in `save_templates`.** Neither `lower <= upper` nor a
  non-empty unit is checked (original.py:871-880). A reversed range is
  stored as given. A cell that `float()` rejects raises before the commit,
  which also rolls back the DELETE.
- **Progress ticks.** n samples take n + 1 timeouts. Each of the first n
  reports one sample, and only timeout n + 1 reports "Completed" and stops
  the timer (original.py:1003-1011).
- **Duplicate sample numbers.** The schema does not declare `sample_number`
  UNIQUE (original.py:94). The model proves that `store_samples` keeps it
  unique whenever it was unique before.
- **The owner of the seeded tests.** Seeding attaches the example tests to
  analyzer id 1 as a constant (original.py:122), not to the id that the
  first INSERT returned. The two agree on a fresh database (`Seeding.FirstStart`).

## Model

| member | source | states |
|---|---|---|
| Table.IdsIdentifyRows | original.py:37 | The id column is the primary key: two rows of a well-formed table with the same id are the same row. |
| Table.InsertAllSpec | original.py:128-132 | A run of INSERTs appends its rows in order, under consecutive new ids taken from the AUTOINCREMENT counter. The table stays well formed, so the new ids exceed every old one. |
| Table.DeleteWhere | original.py:869 | DELETE ... WHERE keeps exactly the rows that fail the condition, with their ids. The AUTOINCREMENT counter does not go back. |
| Table.FirstWith | original.py:1021-1022 | `fetchone()` after a lookup by key finds nothing exactly when no row has the key. Otherwise it finds a row carrying the key, and that row is the only one when keys are unique. |
| Table.Upsert | original.py:1020-1040 | Update-or-insert on one key. It adds a row exactly when no row had the key. Afterwards every row with the key holds the new payload. Rows with other keys are untouched in both directions. Existing rows keep their ids and places. Unique keys stay unique. |
| Table.UpsertAllFrame | original.py:1020-1040 | A batch of upserts: rows whose key the batch never mentions are kept, and no such row is added. Existing rows keep their ids and keys. Key uniqueness and well-formedness are preserved. |
| Table.UpsertAllWrites | original.py:1020-1040 | After a batch of upserts, every key of the batch has a row. Each such row holds one of the batch's payloads, namely the last one written for that key. |
| SampleIntake.StoreSamplesStamps | original.py:1018-1040 | After `store_samples`, every sample number of the batch is stored. Every row with one of those numbers carries the batch's single timestamp. |
| SampleIntake.StoreSamplesLastWins | original.py:1024-1034 | A stored sample's patient id and name come from the last entry of its number in the batch. An entry past the end of a shorter patient list stores the empty string. |
| SampleIntake.StoreSamplesFrame | original.py:1020-1040 | Samples whose number is not in the batch are untouched, and none are added. Existing samples keep their ids. A sample number never gets a second row. |
| SampleIntake.ListSamples | models/data_model.py:88-94 | `get_samples` returns a permutation of the samples table, most recent first. |
| TestCatalog.TestsOf | models/data_model.py:49-55 | `get_tests(a)` returns exactly the tests whose analyzer is a. |
| TestCatalog.SpecsAppend | models/data_model.py:52 | Listing code, unit and range distributes over concatenation of rows. |
| TestCatalog.SaveTestsRows | models/data_model.py:64-72 | After `save_tests(a, specs)`, the table holds the other analyzers' tests followed by the new tests under new ids. |
| TestCatalog.SaveThenGetTests | models/data_model.py:64-72 | Saving then listing an analyzer's tests returns exactly the saved list, in order. |
| TestCatalog.SaveTestsKeepsOthers | models/data_model.py:67 | `save_tests(a, ...)` leaves the tests of every other analyzer as they were, ids included. |
| TestCatalog.SaveTestsRetiresIds | models/data_model.py:67-70 | No row left after `save_tests` carries the id of a deleted test, because AUTOINCREMENT never reuses an id. |
| TestCatalog.ParseEntries | original.py:871-875 | The table rows convert to tests exactly when every range cell parses. The converted list then matches the rows one for one. |
| TestCatalog.SaveTemplates | original.py:859-888 | Nothing changes without a selected analyzer, or when any range cell fails to parse (rollback). Otherwise the analyzer's tests become exactly the table's rows, in order. Only the tests table can change, and the tests of every other analyzer are unchanged. |
| ResultSynthesizer.SampleIdOf | original.py:1068-1069 | The lookup of a sample id by number fails exactly when the number is not stored. Otherwise it returns the id of a row carrying that number. |
| ResultSynthesizer.Resolve | original.py:1067-1069 | All numbers of the batch resolve to ids, one per number and in order, unless at least one number is not stored. |
| ResultSynthesizer.DrawsFromMembers | original.py:1067-1072 | The draws written are exactly the draws of the (sample, test) index pairs of the batch: each such draw is written, and nothing else is. |
| ResultSynthesizer.DrawsFromOrder | original.py:1067-1072 | The nested loops write sample by sample and, within a sample, test by test: there are (number of samples) × (number of tests) draws, and the draw of sample i and test j is at position i × (number of tests) + j. This order decides which draw survives for a repeated sample number. |
| ResultSynthesizer.DrawsFromLength | original.py:1067-1072 | The nested loops write one draw per test for every remaining sample, so (number of samples) × (number of tests) in all. |
| ResultSynthesizer.DrawAt | original.py:1067-1072 | The draw of sample i and test j is written at position (i - i0) × (number of tests) + j, that is, sample by sample and test by test. |
| ResultSynthesizer.DrawsTouch | original.py:1067-1072 | The (sample, test) pairs the loops write are exactly the pairs of a batch sample with one of the analyzer's tests. |
| ResultSynthesizer.DrawInRange | original.py:1074 | Every drawn result is unsent, and its value lies within its test's range. |
| ResultSynthesizer.GenerateResults | original.py:1047-1100 | Nothing changes when no analyzer is selected, when it has no tests, or when a sample number is not stored. Only the results table can change. |
| ResultSynthesizer.GenerateResultsWrites | original.py:1067-1095 | After a successful call, every (sample, test) pair of the batch has a result. Every result of such a pair is unsent (an existing one is reset) and lies within the test's range. |
| ResultSynthesizer.GenerateResultsFrame | original.py:1076-1095 | Results outside the batch are untouched, and none are added. Existing results keep their ids and pairs. No pair ever gets a second result. Well-formedness is preserved. |
| ResultLedger.SendResultsSpec | original.py:1207-1216 | Exactly the listed results become sent. No other row or column changes. An empty list changes nothing. |
| ResultLedger.SendResultsIdempotent | original.py:1214-1216 | Sending the same ids twice equals sending them once. |
| ResultLedger.SendResultsKeepsInvariants | original.py:1216 | Sending preserves well-formedness and the one-result-per-pair invariant. |
| ResultLedger.JoinTestsMembers | models/data_model.py:99 | The join of a result produces a view for each test row whose id it references and no other view. Because test ids are a primary key, there is at most one such view. |
| ResultLedger.SampleResultsMembers | models/data_model.py:96-102 | `get_sample_results(s)` returns exactly the joins of sample s's results with their test rows. Results of other samples, and results whose test row is gone, are not returned. |
| ResultLedger.SampleResultsAtMostOne | models/data_model.py:96-102 | `get_sample_results` returns at most one row per stored result, since the join is on the tests' primary key. |
| ResultLedger.ViewOfPairFields | original.py:1149-1154 | A returned view of a result of the pair (s, t) carries that result's value and flag and test t's range. |
| ResultLedger.WrittenViewFlag | original.py:1173 | When every result of a pair is unsent and within its test's range, every view of one shows unsent. It is flagged abnormal exactly when the range is reversed. |
| ResultLedger.GeneratedResultFlag | original.py:1173 | A freshly generated result is returned by the read and shown unsent. It is flagged abnormal exactly when its test's range is reversed, so a well-ordered range never flags a generated value. |
| ResultLedger.OrphanedResultHidden | models/data_model.py:99 | After `save_tests` replaces the tests a result referenced, the result row is still stored, but the inner join no longer returns it. |
| ConnectionConfig.SaveConnectionSettings | original.py:795-857 | Nothing is written without a selected analyzer. Otherwise the analyzer's settings rows hold the form, or one row is inserted if it had none, and the connection type is "TCP/IP" or "Serial". Other analyzers' settings are untouched. Only the settings table changes. No analyzer gets a second settings row. |
| ConnectionConfig.SaveKeepsKnownTransports | original.py:808 | If every stored connection type is "TCP/IP" or "Serial", that stays true after saving. |
| ConnectionConfig.GetSettings | original.py:702-711 | The settings lookup finds nothing exactly when the analyzer has no settings row. Otherwise it finds a stored row of that analyzer. |
| ConnectionConfig.SetAnalyzer | original.py:695-734 | Selecting an analyzer with no settings row, or with an empty combo box, leaves the form as it was. |
| ConnectionConfig.SaveThenLoad | original.py:711-734 | Saving the form and selecting the analyzer again restores several things: the transport, the check boxes, the delays (an empty one comes back as "0"), and the chosen transport's fields (empty serial fields come back as their defaults). The other transport's fields keep what the form showed before. |
| ConnectionConfig.SaveThenLoadFilled | original.py:711-734 | A form with no empty fields for its transport and delays comes back unchanged after saving and reloading, up to the delay-column affinity gap listed under "## Left out". |
| ConnectionConfig.SocketFields | original.py:778-783 | Both address fields are always editable. The analyzer port is editable exactly in server mode and the LIS port exactly in client mode, so exactly one port is editable. |
| Seeding.CreateDatabase | original.py:114-132 | A database with any analyzer is left as it is. Otherwise only the analyzers and tests tables change, and at least one analyzer exists afterwards. |
| Seeding.CreateDatabaseIdempotent | models/data_model.py:22-28 | Starting the program a second time seeds nothing. |
| Seeding.SeedingAnalyzers | original.py:117-119 | Seeding an empty analyzers table appends "Analyzer 1" and "Analyzer 2" under the next two ids, and keeps the tables well formed. |
| Seeding.SeedDefsAppended | original.py:121-132 | Inserting the three example tests appends them, in order, to analyzer 1's list. |
| Seeding.SeedingTests | original.py:121-132 | Seeding appends the three example tests to analyzer 1's list, whatever that list held. |
| Seeding.SeedingKeepsOthers | models/data_model.py:26-28 | Seeding leaves the tests of every analyzer other than 1 unchanged. |
| Seeding.FirstStart | original.py:114-132 | On a fresh database the analyzers get ids 1 and 2. Analyzer 1's tests are exactly the three examples, and Analyzer 2 has none. |
| AnalysisRun.Tick | original.py:1003-1011 | A timeout reports the sample at the index and advances the index exactly while samples remain, with a progress value between 1 and the list length. Otherwise it reports "Completed" and stops. The index never passes the end of the list. |
| AnalysisRun.RunFrom | original.py:1003-1011 | From any index, the timer reports the remaining samples in list order with the progress counting up. It then reports "Completed" once and stops, and further timeouts report nothing. |
| AnalysisRun.FullRun | original.py:1003-1011 | A run over n samples reports them in order on the first n timeouts and completes on timeout n + 1. |
| AnalysisRun.KeptMembers | original.py:971-984 | The rows collected are exactly the entry rows with a non-empty sample number. |
| AnalysisRun.KeptAppend | original.py:971-984 | Collecting rows distributes over concatenation, so entry order is kept. |
| AnalysisRun.StartAnalysis | original.py:967-1001 | With no sample number entered, nothing changes. Otherwise the timer starts at index 0 over the non-empty sample numbers, and only the samples and results tables change. |
| AnalysisRun.StartGenerates | original.py:989-990 | The samples are stored before generation, so generation finds all of them. Results are written exactly when an analyzer is selected and has tests. |
| AnalysisRun.StartStoresEntries | original.py:989 | Each entered row's patient fields are stored with its sample (the last row wins for a repeated number), stamped with the run's timestamp. |
| AnalysisRun.StartThenRun | original.py:993-999 | The timer of a started run reports the entered sample numbers in entry order, then completes. |

## Left out

- **The user interface.** The PyQt windows and widgets, table population,
  message boxes, the stylesheet and application start-up (`views/`,
  `main.py`) are presentation only. So is `controllers/main_controller.py`,
  which is UI glue.
- **Empty storage stubs.** `save_connection_settings` and `generate_results`
  in `models/data_model.py` have empty bodies. The model follows the
  `original.py` versions instead.
- **`store_samples` in `models/data_model.py`.** It uses `INSERT OR REPLACE`,
  whose effect depends on a unique constraint that the file does not spell
  out. Only the upsert of `original.py` is modelled.
- **Connections.** Opening, committing and closing are modelled as one
  all-or-nothing transition per call.
- **`connect_to_lis`.** It only logs text on a `QTimer`; there is no
  transport.
- **ASTM templates.** `add_field`, the template text and the
  `astm_templates` table are opaque text that nothing parses, and the engine
  never writes the table.
- **`get_analyzers` and `load_analyzers`.** Plain reads of the analyzers
  table, with no logic beyond the SELECT.
- **`toggle_connection_type`.** It only switches widget visibility.
- **`set_analyzer` beyond the connection tab.** It also reloads the test
  table widget, which is the `get_tests` read modelled by
  `TestCatalog.TestsOf`, and runs an empty loop over the templates. These
  are not part of `SetAnalyzer`.
- **Floating point and rounding.** Bounds and values are exact thousandths.
  `round(..., 3)` is the identity on them, and the model assumes the
  reference ranges are multiples of 0.001.
- GeneratedResultFlag: proved only for ranges that are multiples of 0.001.
  For other float bounds, `round(..., 3)` can push a value just outside its
  range, and then the flag could show on a generated value.
- DrawInRange: the draw is an input constrained to the range, not Python's
  generator.
- SaveThenLoad: the model's `Form.serialPort` and `Form.parity` are free
  strings, whereas the source's serial port and parity widgets are
  non-editable combo boxes that only hold their listed items. The model
  therefore also covers forms the program cannot produce.
- SaveThenLoad: SQLite's INTEGER affinity for the two delay columns is not
  modelled. The text "05" would be read back as "5"; the model keeps the
  text verbatim.
- SaveThenLoadFilled: SQLite's INTEGER affinity for the two delay columns is
  not modelled, so a delay typed as "05", "00" or "1.0" comes back as "5",
  "0" or "1" in the source, while the model claims it comes back unchanged.
  As for SaveThenLoad, `Form.serialPort` and `Form.parity` are free strings
  here, while the source's combo boxes only hold their listed items.
- **`load_sample_results`.** Its patient lookup and the cell colouring are
  UI. The join it runs is `ResultLedger.GetSampleResults` and the colour
  condition is `ResultLedger.Abnormal`.
- StartAnalysis: a second `start_analysis` while a timer is still running
  creates a second timer in the source. The model keeps one timer value, so
  that overlap is not represented.
- **`send_selected_results` and `send_all_results`.** They only collect
  result ids from the table widget before calling `send_results`, which is
  modelled.
