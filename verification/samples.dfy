/**
 * Sample intake and the sample list: `store_samples` upserts a batch of
 * samples by sample number, all stamped with the one clock reading taken at
 * the start of the batch; `get_samples` lists them most recent first.
 */
module SampleIntake {
  import opened Table
  import opened Schema

  /** The patient field of entry i: entries past the end of a shorter list
      default to the empty string. */
  function FieldAt(list: seq<string>, i: nat): string {
    if i < |list| then list[i] else ""
  }

  /** The sample rows the batch writes, in order. */
  function Batch(numbers: seq<string>, patientIds: seq<string>, patientNames: seq<string>, now: int): seq<Sample> {
    seq(|numbers|, i requires 0 <= i < |numbers| =>
      Sample(numbers[i], FieldAt(patientIds, i), FieldAt(patientNames, i), now))
  }

  /** `store_samples`: for each sample number, UPDATE the patient fields and
      timestamp of the rows carrying it if there are any, else INSERT a row. */
  function StoreSamples(t: Table<Sample>, numbers: seq<string>, patientIds: seq<string>,
                        patientNames: seq<string>, now: int): Table<Sample>
  {
    UpsertAll(t, SampleNumberOf, Batch(numbers, patientIds, patientNames, now))
  }

  /** A suffix of the batch touches exactly the numbers it lists. */
  lemma BatchTouches(numbers: seq<string>, patientIds: seq<string>, patientNames: seq<string>,
                     now: int, k: nat, n: string)
    requires k <= |numbers|
    ensures Touches(Batch(numbers, patientIds, patientNames, now)[k..], SampleNumberOf, n)
        <==> n in numbers[k..]
  {
    var vs := Batch(numbers, patientIds, patientNames, now);
    if n in numbers[k..] {
      var i :| k <= i < |numbers| && numbers[i] == n;
      assert vs[k..][i - k] == vs[i];
      assert vs[i] in vs[k..] && SampleNumberOf(vs[i]) == n;
    }
    if Touches(vs[k..], SampleNumberOf, n) {
      var v :| v in vs[k..] && SampleNumberOf(v) == n;
      var i :| 0 <= i < |vs| - k && vs[k..][i] == v;
      assert numbers[k..][i] == n;
    }
  }

  /** Every number of the batch is stored afterwards, and every row carrying
      one of them holds the batch's single timestamp. */
  lemma StoreSamplesStamps(t: Table<Sample>, numbers: seq<string>, patientIds: seq<string>,
                           patientNames: seq<string>, now: int)
    ensures var r := StoreSamples(t, numbers, patientIds, patientNames, now);
      && (forall k | 0 <= k < |numbers| :: HasKey(r.rows, SampleNumberOf, numbers[k]))
      && (forall x | x in r.rows && x.val.sampleNumber in numbers :: x.val.dateTime == now)
  {
    var vs := Batch(numbers, patientIds, patientNames, now);
    var r := StoreSamples(t, numbers, patientIds, patientNames, now);
    UpsertAllWrites(t, SampleNumberOf, vs);
    forall k | 0 <= k < |numbers| ensures HasKey(r.rows, SampleNumberOf, numbers[k]) {
      assert vs[k] in vs;
    }
    forall x | x in r.rows && x.val.sampleNumber in numbers ensures x.val.dateTime == now {
      BatchTouches(numbers, patientIds, patientNames, now, 0, x.val.sampleNumber);
      assert vs[0..] == vs && numbers[0..] == numbers;
      assert x.val in vs;
    }
  }

  /** The last entry of a number in the batch decides its patient fields;
      entries with no patient data store the empty string. */
  lemma StoreSamplesLastWins(t: Table<Sample>, numbers: seq<string>, patientIds: seq<string>,
                             patientNames: seq<string>, now: int, k: nat, x: Row<Sample>)
    requires k < |numbers| && numbers[k] !in numbers[k + 1..]
    requires x in StoreSamples(t, numbers, patientIds, patientNames, now).rows
    requires x.val.sampleNumber == numbers[k]
    ensures x.val.patientId == FieldAt(patientIds, k)
    ensures x.val.patientName == FieldAt(patientNames, k)
  {
    var vs := Batch(numbers, patientIds, patientNames, now);
    UpsertAllWrites(t, SampleNumberOf, vs);
    BatchTouches(numbers, patientIds, patientNames, now, k + 1, numbers[k]);
    assert SampleNumberOf(vs[k]) == numbers[k];
  }

  /** What one `store_samples` call leaves alone: samples outside the batch,
      the ids of existing rows, and the uniqueness of sample numbers. */
  lemma StoreSamplesFrame(t: Table<Sample>, numbers: seq<string>, patientIds: seq<string>,
                          patientNames: seq<string>, now: int)
    ensures var r := StoreSamples(t, numbers, patientIds, patientNames, now);
      && (forall x | x in t.rows && x.val.sampleNumber !in numbers :: x in r.rows)
      && (forall x | x in r.rows && x.val.sampleNumber !in numbers :: x in t.rows)
      && |t.rows| <= |r.rows|
      && (forall i | 0 <= i < |t.rows| ::
            r.rows[i].id == t.rows[i].id && r.rows[i].val.sampleNumber == t.rows[i].val.sampleNumber)
      // no sample number ever gets a second row
      && (UniqueKeys(t.rows, SampleNumberOf) ==> UniqueKeys(r.rows, SampleNumberOf))
      && (Valid(t) ==> Valid(r))
  {
    var vs := Batch(numbers, patientIds, patientNames, now);
    UpsertAllFrame(t, SampleNumberOf, vs);
    assert vs[0..] == vs && numbers[0..] == numbers;
    forall n | n !in numbers ensures !Touches(vs, SampleNumberOf, n) {
      BatchTouches(numbers, patientIds, patientNames, now, 0, n);
    }
  }

  // ------------------------------------------------------------ get_samples

  /** Most recent first: `ORDER BY date_time DESC`. */
  predicate NewestFirst(rows: seq<Row<Sample>>) {
    forall i, j | 0 <= i < j < |rows| :: rows[i].val.dateTime >= rows[j].val.dateTime
  }

  /** Places x in front of the first row that is not more recent than it. */
  function InsertByTime(x: Row<Sample>, rows: seq<Row<Sample>>): (r: seq<Row<Sample>>)
    requires NewestFirst(rows)
    ensures NewestFirst(r)
    ensures multiset(r) == multiset(rows) + multiset{x}
  {
    if |rows| == 0 then [x]
    else if x.val.dateTime >= rows[0].val.dateTime then
      HeadIsNewest(rows);
      ConsNewest(x, rows);
      [x] + rows
    else
      var rest := InsertByTime(x, rows[1..]);
      assert rows == [rows[0]] + rows[1..];
      HeadIsNewest(rows);
      NotNewerThan(rest, rows[1..], x, rows[0].val.dateTime);
      ConsNewest(rows[0], rest);
      [rows[0]] + rest
  }

  /** The first row of a newest-first list is the most recent. */
  lemma HeadIsNewest(rows: seq<Row<Sample>>)
    requires NewestFirst(rows) && |rows| > 0
    ensures forall y | y in rows :: y.val.dateTime <= rows[0].val.dateTime
  {
    forall y | y in rows ensures y.val.dateTime <= rows[0].val.dateTime {
      var j :| 0 <= j < |rows| && rows[j] == y;
    }
  }

  /** A row at least as recent as all others can go in front. */
  lemma ConsNewest(y: Row<Sample>, rows: seq<Row<Sample>>)
    requires NewestFirst(rows)
    requires forall z | z in rows :: z.val.dateTime <= y.val.dateTime
    ensures NewestFirst([y] + rows)
  {
    var r := [y] + rows;
    forall i, j | 0 <= i < j < |r| ensures r[i].val.dateTime >= r[j].val.dateTime {
      assert r[j] == rows[j - 1];
      if i > 0 {
        assert r[i] == rows[i - 1];
      }
    }
  }

  /** A permutation of rows plus x holds nothing more recent than t when
      neither rows nor x does. */
  lemma NotNewerThan(rest: seq<Row<Sample>>, rows: seq<Row<Sample>>, x: Row<Sample>, t: int)
    requires multiset(rest) == multiset(rows) + multiset{x}
    requires forall z | z in rows :: z.val.dateTime <= t
    requires x.val.dateTime <= t
    ensures forall z | z in rest :: z.val.dateTime <= t
  {
    forall z | z in rest ensures z.val.dateTime <= t {
      assert z in multiset(rest);
      if z != x {
        assert z in multiset(rows);
      }
    }
  }

  /** `get_samples`: the samples table ordered most recent first. */
  function ListSamples(rows: seq<Row<Sample>>): (r: seq<Row<Sample>>)
    ensures NewestFirst(r)
    ensures multiset(r) == multiset(rows)
  {
    if |rows| == 0 then []
    else
      assert rows == [rows[0]] + rows[1..];
      InsertByTime(rows[0], ListSamples(rows[1..]))
  }
}
