/**
 * Starting an analysis run and its progress timer: `start_analysis` collects
 * the sample rows with a sample number, stores them, generates their
 * results and starts a one-second timer; each timeout runs `update_progress`,
 * which reports the next sample number, and once the list is exhausted stops
 * the timer and reports completion.
 */
module AnalysisRun {
  import opened Table
  import opened Schema
  import opened SampleIntake
  import opened ResultSynthesizer
  import opened TestCatalog

  // ------------------------------------------------------ update_progress

  /** The progress timer: running over a fixed list of sample numbers with
      `current_sample_index`, or stopped. */
  datatype Timer = Running(samples: seq<string>, index: nat) | Stopped(samples: seq<string>)

  /** What one timeout shows: the current sample's number with the progress
      bar's new value, or "Completed". */
  datatype Report = Current(sample: string, progress: nat) | Completed

  /** The index never passes the end of the list. */
  predicate Inv(s: Timer) {
    s.Running? ==> s.index <= |s.samples|
  }

  /** `update_progress`, called by a running timer. */
  function Tick(s: Timer): (r: (Timer, Report))
    requires s.Running?
    ensures Inv(s) ==> Inv(r.0)
    ensures r.1.Current? <==> s.index < |s.samples|
    ensures r.1.Current? ==>
      && r.0 == Running(s.samples, s.index + 1)
      && r.1.sample == s.samples[s.index]
      && r.1.progress == s.index + 1 <= |s.samples|
    ensures r.1.Completed? ==> r.0 == Stopped(s.samples)
  {
    if s.index < |s.samples| then (Running(s.samples, s.index + 1), Current(s.samples[s.index], s.index + 1))
    else (Stopped(s.samples), Completed)
  }

  /** n timeouts: a stopped timer fires no more. */
  function Ticks(s: Timer, n: nat): (Timer, seq<Report>)
    decreases n
  {
    if n == 0 || !s.Running? then (s, [])
    else
      var (s1, rep) := Tick(s);
      var (s2, reps) := Ticks(s1, n - 1);
      (s2, [rep] + reps)
  }

  /** The reports of samples i.. of the list, in order. */
  function Reports(samples: seq<string>, i: nat): seq<Report>
    requires i <= |samples|
  {
    seq(|samples| - i, k requires 0 <= k < |samples| - i => Current(samples[i + k], i + k + 1))
  }

  /** From index i, the timer reports the remaining samples one per
      timeout, in list order with the progress value counting up, then
      reports "Completed" on the next timeout and stops; further timeouts
      report nothing. */
  lemma {:induction false} RunFrom(samples: seq<string>, i: nat, extra: nat)
    requires i <= |samples|
    ensures Ticks(Running(samples, i), |samples| - i + 1 + extra)
      == (Stopped(samples), Reports(samples, i) + [Completed])
    decreases |samples| - i
  {
    var n := |samples| - i + 1 + extra;
    if i < |samples| {
      RunFrom(samples, i + 1, extra);
      var rest := Reports(samples, i + 1) + [Completed];
      assert Tick(Running(samples, i)) == (Running(samples, i + 1), Current(samples[i], i + 1));
      assert Ticks(Running(samples, i), n) == (Stopped(samples), [Current(samples[i], i + 1)] + rest);
      assert Reports(samples, i) == [Current(samples[i], i + 1)] + Reports(samples, i + 1);
      assert Reports(samples, i) + [Completed] == [Current(samples[i], i + 1)] + rest;
    } else {
      assert Tick(Running(samples, i)) == (Stopped(samples), Completed);
      assert Ticks(Stopped(samples), n - 1) == (Stopped(samples), []);
      assert Reports(samples, i) == [];
      assert Ticks(Running(samples, i), n) == (Stopped(samples), [Completed] + []);
      assert Reports(samples, i) + [Completed] == [Completed] + [];
    }
  }

  /** A run over n samples reports them in order on the first n timeouts
      and completes on timeout n + 1. */
  lemma FullRun(samples: seq<string>)
    ensures var reps := Ticks(Running(samples, 0), |samples| + 1).1;
      && Ticks(Running(samples, 0), |samples| + 1).0 == Stopped(samples)
      && |reps| == |samples| + 1
      && (forall k | 0 <= k < |samples| :: reps[k] == Current(samples[k], k + 1))
      && reps[|samples|] == Completed
  {
    RunFrom(samples, 0, 0);
    assert Reports(samples, 0) + [Completed] == Ticks(Running(samples, 0), |samples| + 1).1;
  }

  // ------------------------------------------------------- start_analysis

  /** One row of the sample entry area: sample number, patient id and name. */
  datatype SampleEntry = SampleEntry(sampleNumber: string, patientId: string, patientName: string)

  /** The rows whose sample number is not empty, in order. */
  function Kept(entries: seq<SampleEntry>): seq<SampleEntry> {
    if |entries| == 0 then []
    else (if entries[0].sampleNumber != "" then [entries[0]] else []) + Kept(entries[1..])
  }

  /** Exactly the rows with a sample number are kept. */
  lemma {:induction false} KeptMembers(entries: seq<SampleEntry>)
    ensures forall e | e in Kept(entries) :: e in entries && e.sampleNumber != ""
    ensures forall e | e in entries && e.sampleNumber != "" :: e in Kept(entries)
    ensures |Kept(entries)| <= |entries|
  {
    if |entries| > 0 {
      KeptMembers(entries[1..]);
      assert forall e | e in entries :: e == entries[0] || e in entries[1..];
    }
  }

  /** Keeping works row by row: the rows kept from a + b are those kept
      from a followed by those kept from b, so the entry order survives. */
  lemma {:induction false} KeptAppend(a: seq<SampleEntry>, b: seq<SampleEntry>)
    ensures Kept(a + b) == Kept(a) + Kept(b)
  {
    if |a| > 0 {
      KeptAppend(a[1..], b);
      var head := if a[0].sampleNumber != "" then [a[0]] else [];
      assert (a + b)[0] == a[0] && (a + b)[1..] == a[1..] + b;
      assert Kept(a + b) == head + Kept(a[1..] + b);
      assert head + (Kept(a[1..]) + Kept(b)) == (head + Kept(a[1..])) + Kept(b);
    } else {
      assert a + b == b;
    }
  }

  function Numbers(es: seq<SampleEntry>): seq<string> {
    seq(|es|, i requires 0 <= i < |es| => es[i].sampleNumber)
  }

  function PatientIds(es: seq<SampleEntry>): seq<string> {
    seq(|es|, i requires 0 <= i < |es| => es[i].patientId)
  }

  function PatientNames(es: seq<SampleEntry>): seq<string> {
    seq(|es|, i requires 0 <= i < |es| => es[i].patientName)
  }

  /** A started run: the database after storing and generating, and the
      fresh timer. */
  datatype Started = Started(db: Db, timer: Timer)

  /** The stores `start_analysis` makes for a non-empty batch. */
  function StoreAndGenerate(db: Db, analyzer: Option<nat>, kept: seq<SampleEntry>, now: int, rng: Rng): Db {
    var stored := db.(samples := StoreSamples(db.samples, Numbers(kept), PatientIds(kept), PatientNames(kept), now));
    GenerateResults(stored, analyzer, Numbers(kept), rng)
  }

  /** `start_analysis`: without any sample number it warns and changes
      nothing (None); otherwise it stores the kept rows, generates their
      results, and starts the timer at index 0 over their sample numbers.
      Only the samples and results tables can change. */
  function StartAnalysis(db: Db, analyzer: Option<nat>, entries: seq<SampleEntry>, now: int, rng: Rng): (r: Option<Started>)
    ensures r.None? <==> forall e | e in entries :: e.sampleNumber == ""
    ensures r.Some? ==>
      && r.value.timer == Running(Numbers(Kept(entries)), 0) && |r.value.timer.samples| > 0
      && (forall k | 0 <= k < |r.value.timer.samples| :: r.value.timer.samples[k] != "")
      && r.value.db == db.(samples := r.value.db.samples, results := r.value.db.results)
  {
    var kept := Kept(entries);
    KeptMembers(entries);
    if |kept| == 0 then
      None
    else
      assert kept[0] in kept;
      assert forall k | 0 <= k < |kept| :: kept[k] in kept;
      Some(Started(StoreAndGenerate(db, analyzer, kept, now, rng), Running(Numbers(kept), 0)))
  }

  /** Every started batch is stored before generation, so generation finds
      all of its samples: results are written exactly when an analyzer is
      selected and has tests. */
  lemma StartGenerates(db: Db, analyzer: Option<nat>, entries: seq<SampleEntry>, now: int, rng: Rng)
    requires StartAnalysis(db, analyzer, entries, now, rng).Some?
    ensures var kept := Kept(entries);
      var stored := db.(samples := StoreSamples(db.samples, Numbers(kept), PatientIds(kept), PatientNames(kept), now));
      var tested := Selected(analyzer) && |TestsOf(db.tests.rows, analyzer.value)| > 0;
      Generates(stored, analyzer, Numbers(kept)) <==> tested
  {
    var kept := Kept(entries);
    StoreSamplesStamps(db.samples, Numbers(kept), PatientIds(kept), PatientNames(kept), now);
  }

  /** Each kept row's patient fields are stored with its sample (the last
      row wins when a sample number is entered twice), and every kept
      sample carries the run's timestamp. */
  lemma StartStoresEntries(db: Db, analyzer: Option<nat>, entries: seq<SampleEntry>, now: int, rng: Rng,
                           k: nat, x: Row<Sample>)
    requires StartAnalysis(db, analyzer, entries, now, rng).Some?
    requires k < |Kept(entries)| && Numbers(Kept(entries))[k] !in Numbers(Kept(entries))[k + 1..]
    requires x in StartAnalysis(db, analyzer, entries, now, rng).value.db.samples.rows
    requires x.val.sampleNumber == Kept(entries)[k].sampleNumber
    ensures x.val.patientId == Kept(entries)[k].patientId
    ensures x.val.patientName == Kept(entries)[k].patientName
    ensures x.val.dateTime == now
  {
    var kept := Kept(entries);
    var stored := db.(samples := StoreSamples(db.samples, Numbers(kept), PatientIds(kept), PatientNames(kept), now));
    assert StartAnalysis(db, analyzer, entries, now, rng).value.db.samples == stored.samples;
    StoreSamplesLastWins(db.samples, Numbers(kept), PatientIds(kept), PatientNames(kept), now, k, x);
    StoreSamplesStamps(db.samples, Numbers(kept), PatientIds(kept), PatientNames(kept), now);
    assert Numbers(kept)[k] in Numbers(kept);
  }

  /** The timer of a started run reports the kept sample numbers in entry
      order and then completes. */
  lemma StartThenRun(db: Db, analyzer: Option<nat>, entries: seq<SampleEntry>, now: int, rng: Rng)
    requires StartAnalysis(db, analyzer, entries, now, rng).Some?
    ensures var nums := Numbers(Kept(entries));
      var (s, reps) := Ticks(StartAnalysis(db, analyzer, entries, now, rng).value.timer, |nums| + 1);
      && s == Stopped(nums)
      && |reps| == |nums| + 1
      && (forall k | 0 <= k < |nums| :: reps[k] == Current(nums[k], k + 1))
      && reps[|nums|] == Completed
  {
    var r := StartAnalysis(db, analyzer, entries, now, rng);
    assert r.value.timer == Running(Numbers(Kept(entries)), 0);
    FullRun(Numbers(Kept(entries)));
  }
}
