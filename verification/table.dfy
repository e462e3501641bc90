/**
 * An SQLite table whose first column is `id INTEGER PRIMARY KEY AUTOINCREMENT`,
 * modelled as an immutable value: the rows in rowid order together with the
 * AUTOINCREMENT counter (the id the next INSERT receives). Every table of the
 * simulator's database has this shape.
 *
 * Besides the plain statements (INSERT, DELETE ... WHERE, SELECT ... WHERE),
 * this module defines the one read-then-write pattern the simulator uses over
 * and over: look a row up by a key and UPDATE every row with that key if one
 * exists, otherwise INSERT a new row (`Upsert`), and a batch of such upserts
 * executed one after the other (`UpsertAll`).
 */
module Table {

  datatype Option<+T> = None | Some(value: T)

  /** One row: the primary key and the remaining columns. */
  datatype Row<T> = Row(id: nat, val: T)

  /** Rows in rowid order, and the next id AUTOINCREMENT hands out. */
  datatype Table<T> = Table(rows: seq<Row<T>>, next: nat)

  /** What SQLite guarantees of such a table: ids are positive, below the
      counter, and strictly ascending in rowid order (hence unique). */
  predicate Valid<T(==)>(t: Table<T>) {
    && 0 < t.next
    && (forall x | x in t.rows :: 0 < x.id < t.next)
    && Ascending(t.rows)
  }

  predicate Ascending<T(==)>(rows: seq<Row<T>>) {
    forall i, j | 0 <= i < j < |rows| :: rows[i].id < rows[j].id
  }

  /** A freshly created table. */
  function Empty<T(==)>(): (t: Table<T>)
    ensures Valid(t) && |t.rows| == 0
  {
    Table([], 1)
  }

  /** Two rows of a valid table with the same id are the same row. */
  lemma {:induction false} IdsIdentifyRows<T>(t: Table<T>, x: Row<T>, y: Row<T>)
    requires Valid(t)
    requires x in t.rows && y in t.rows && x.id == y.id
    ensures x == y
  {
    var i :| 0 <= i < |t.rows| && t.rows[i] == x;
    var j :| 0 <= j < |t.rows| && t.rows[j] == y;
    AscendingIds(t.rows, i, j);
  }

  /** In ascending rows an id occurs at one position only. */
  lemma AscendingIds<T>(rows: seq<Row<T>>, i: nat, j: nat)
    requires Ascending(rows)
    requires i < |rows| && j < |rows| && rows[i].id == rows[j].id
    ensures i == j
  {
  }

  // ---------------------------------------------------------------- INSERT

  /** `INSERT INTO t VALUES (v)`: the row is appended with the counter as id. */
  function Insert<T(==)>(t: Table<T>, v: T): (r: Table<T>)
    ensures |r.rows| == |t.rows| + 1 && r.rows[..|t.rows|] == t.rows
    ensures r.rows[|t.rows|] == Row(t.next, v)
    ensures Valid(t) ==> Valid(r) && forall x | x in t.rows :: x.id < r.rows[|t.rows|].id
  {
    Table(t.rows + [Row(t.next, v)], t.next + 1)
  }

  /** One INSERT per element of vs, in order. */
  function InsertAll<T(==)>(t: Table<T>, vs: seq<T>): (r: Table<T>)
    decreases |vs|
  {
    if |vs| == 0 then t else InsertAll(Table(t.rows + [Row(t.next, vs[0])], t.next + 1), vs[1..])
  }

  /** The rows a batch of INSERTs appends: consecutive ids from n. */
  function Fresh<T>(n: nat, vs: seq<T>): seq<Row<T>> {
    seq(|vs|, k requires 0 <= k < |vs| => Row(n + k, vs[k]))
  }

  /** The loop of INSERTs appends the payloads in order under fresh
      consecutive ids, and keeps a valid table valid. */
  lemma InsertAllSpec<T>(t: Table<T>, vs: seq<T>)
    ensures InsertAll(t, vs) == Table(t.rows + Fresh(t.next, vs), t.next + |vs|)
    ensures Valid(t) ==> Valid(InsertAll(t, vs))
  {
    InsertAllRows(t, vs);
    if Valid(t) {
      AppendFreshValid(t, vs);
    }
  }

  lemma {:induction false} InsertAllRows<T>(t: Table<T>, vs: seq<T>)
    ensures InsertAll(t, vs) == Table(t.rows + Fresh(t.next, vs), t.next + |vs|)
    decreases |vs|
  {
    if |vs| > 0 {
      var head := Row(t.next, vs[0]);
      var t1 := Table(t.rows + [head], t.next + 1);
      InsertAllRows(t1, vs[1..]);
      var tail := Fresh(t1.next, vs[1..]);
      FreshCons(t.next, vs);
      assert t1.rows + tail == t.rows + ([head] + tail);
    }
  }

  lemma FreshCons<T>(n: nat, vs: seq<T>)
    requires |vs| > 0
    ensures Fresh(n, vs) == [Row(n, vs[0])] + Fresh(n + 1, vs[1..])
  {
    var a := Fresh(n, vs);
    var b := [Row(n, vs[0])] + Fresh(n + 1, vs[1..]);
    assert |a| == |b|;
    forall k | 0 <= k < |a| ensures a[k] == b[k] {
      if k > 0 {
        assert b[k] == Fresh(n + 1, vs[1..])[k - 1];
      }
    }
  }

  lemma AppendFreshValid<T>(t: Table<T>, vs: seq<T>)
    requires Valid(t)
    ensures Valid(Table(t.rows + Fresh(t.next, vs), t.next + |vs|))
  {
    var rows := t.rows + Fresh(t.next, vs);
    forall i, j | 0 <= i < j < |rows| ensures rows[i].id < rows[j].id {
      if j < |t.rows| {
        assert rows[i] == t.rows[i] && rows[j] == t.rows[j];
      } else if i < |t.rows| {
        assert rows[i] in t.rows;
      }
    }
    forall x | x in rows ensures 0 < x.id < t.next + |vs| {
      if x !in t.rows {
        var k :| 0 <= k < |vs| && Fresh(t.next, vs)[k] == x;
      }
    }
  }

  // --------------------------------------------------------- SELECT / DELETE

  /** `SELECT * FROM t WHERE p`, in rowid order. */
  function Where<T(==)>(rows: seq<Row<T>>, p: T -> bool): (r: seq<Row<T>>)
    ensures forall x | x in r :: x in rows && p(x.val)
    ensures forall x | x in rows && p(x.val) :: x in r
    ensures |r| <= |rows|
  {
    if |rows| == 0 then []
    else
      var rest := Where(rows[1..], p);
      assert forall x | x in rest :: x in rows[1..];
      if p(rows[0].val) then [rows[0]] + rest else rest
  }

  /** Filtering keeps the rowid order. */
  lemma {:induction false} WhereAscending<T>(rows: seq<Row<T>>, p: T -> bool)
    ensures Ascending(rows) ==> Ascending(Where(rows, p))
  {
    if |rows| > 0 && Ascending(rows) {
      var rest := Where(rows[1..], p);
      AscendingTail(rows);
      WhereAscending(rows[1..], p);
      if p(rows[0].val) {
        ConsAscending(rows[0], rest);
      }
    }
  }

  /** The tail of ascending rows is ascending, and all its ids exceed the
      head's. */
  lemma AscendingTail<T>(rows: seq<Row<T>>)
    requires Ascending(rows) && |rows| > 0
    ensures Ascending(rows[1..])
    ensures forall x | x in rows[1..] :: rows[0].id < x.id
  {
    forall x | x in rows[1..] ensures rows[0].id < x.id {
      var k :| 0 <= k < |rows[1..]| && rows[1..][k] == x;
      assert rows[k + 1] == x;
    }
  }

  /** A row with a smaller id than all of ascending rows can go in front. */
  lemma ConsAscending<T>(y: Row<T>, rows: seq<Row<T>>)
    requires Ascending(rows)
    requires forall x | x in rows :: y.id < x.id
    ensures Ascending([y] + rows)
  {
    var r := [y] + rows;
    forall i, j | 0 <= i < j < |r| ensures r[i].id < r[j].id {
      assert r[j] == rows[j - 1];
      if i > 0 {
        assert r[i] == rows[i - 1];
      }
    }
  }

  /** Filtering distributes over concatenation. */
  lemma {:induction false} WhereAppend<T>(a: seq<Row<T>>, b: seq<Row<T>>, p: T -> bool)
    ensures Where(a + b, p) == Where(a, p) + Where(b, p)
  {
    if |a| == 0 {
      assert a + b == b;
    } else {
      assert (a + b)[1..] == a[1..] + b;
      WhereAppend(a[1..], b, p);
    }
  }

  /** Rows satisfying p are all kept, in order ... */
  lemma {:induction false} WhereKeepsAll<T>(rows: seq<Row<T>>, p: T -> bool)
    requires forall x | x in rows :: p(x.val)
    ensures Where(rows, p) == rows
  {
    if |rows| > 0 {
      WhereKeepsAll(rows[1..], p);
    }
  }

  /** ... and rows failing it are all dropped. */
  lemma WhereDropsAll<T>(rows: seq<Row<T>>, p: T -> bool)
    requires forall x | x in rows :: !p(x.val)
    ensures Where(rows, p) == []
  {
  }

  /** Filtering by q first does not matter when p implies q. */
  lemma {:induction false} WhereWhere<T>(rows: seq<Row<T>>, q: T -> bool, p: T -> bool)
    requires forall v :: p(v) ==> q(v)
    ensures Where(Where(rows, q), p) == Where(rows, p)
  {
    if |rows| > 0 {
      WhereWhere(rows[1..], q, p);
      var rest := Where(rows[1..], q);
      if q(rows[0].val) {
        assert ([rows[0]] + rest)[1..] == rest;
      }
    }
  }

  /** The complement of a row condition. */
  function Not<T>(p: T -> bool): T -> bool {
    (v: T) => !p(v)
  }

  /** `DELETE FROM t WHERE p`: the counter is not reset, so deleted ids are
      never handed out again. */
  function DeleteWhere<T(==)>(t: Table<T>, p: T -> bool): (r: Table<T>)
    ensures r.next == t.next
    ensures forall x | x in r.rows :: x in t.rows && !p(x.val)
    ensures forall x | x in t.rows && !p(x.val) :: x in r.rows
    ensures Valid(t) ==> Valid(r)
  {
    WhereAscending(t.rows, Not(p));
    Table(Where(t.rows, Not(p)), t.next)
  }

  // ---------------------------------------------------------------- UPSERT

  /** Some row's key equals k (`SELECT id ... WHERE key = k` finds a row). */
  predicate HasKey<T(==), K(==)>(rows: seq<Row<T>>, key: T -> K, k: K) {
    exists x | x in rows :: key(x.val) == k
  }

  /** `SELECT ... WHERE key = k` then `fetchone()`: the first such row in
      rowid order, or None. When keys are unique it is THE row with key k. */
  function FirstWith<T(==), K(==)>(rows: seq<Row<T>>, key: T -> K, k: K): (r: Option<Row<T>>)
    ensures r.None? <==> !HasKey(rows, key, k)
    ensures r.Some? ==> r.value in rows && key(r.value.val) == k
    ensures UniqueKeys(rows, key) ==> forall x | x in rows && key(x.val) == k :: r == Some(x)
  {
    if |rows| == 0 then None
    else if key(rows[0].val) == k then
      assert UniqueKeys(rows, key) ==> forall x | x in rows && key(x.val) == k :: x == rows[0] by {
        if UniqueKeys(rows, key) {
          forall x | x in rows && key(x.val) == k ensures x == rows[0] {
            var i :| 0 <= i < |rows| && rows[i] == x;
          }
        }
      }
      Some(rows[0])
    else
      var r := FirstWith(rows[1..], key, k);
      assert rows == [rows[0]] + rows[1..];
      assert UniqueKeys(rows, key) ==> UniqueKeys(rows[1..], key) by {
        if UniqueKeys(rows, key) {
          forall i, j | 0 <= i < j < |rows[1..]|
            ensures key(rows[1..][i].val) != key(rows[1..][j].val)
          {
            assert rows[1..][i] == rows[i + 1] && rows[1..][j] == rows[j + 1];
          }
        }
      }
      r
  }

  /** No two rows share a key. */
  predicate UniqueKeys<T(==), K(==)>(rows: seq<Row<T>>, key: T -> K) {
    forall i, j | 0 <= i < j < |rows| :: key(rows[i].val) != key(rows[j].val)
  }

  /** Some payload of vs has key k. */
  predicate Touches<T(==), K(==)>(vs: seq<T>, key: T -> K, k: K) {
    exists v | v in vs :: key(v) == k
  }

  /** `UPDATE t SET ... WHERE key = key(v)`, where the SET clause writes every
      non-key column of v: each matching row keeps its id and position. */
  function Overwrite<T(==), K(==)>(rows: seq<Row<T>>, key: T -> K, v: T): (r: seq<Row<T>>)
  {
    seq(|rows|, i requires 0 <= i < |rows| =>
      if key(rows[i].val) == key(v) then Row(rows[i].id, v) else rows[i])
  }

  /** Look the key of v up; UPDATE every row carrying it to v if there is
      one, otherwise INSERT v. */
  function Upsert<T(==), K(==)>(t: Table<T>, key: T -> K, v: T): (r: Table<T>)
    // exactly one row is added, and only when the key was absent
    ensures |r.rows| == |t.rows| + (if HasKey(t.rows, key, key(v)) then 0 else 1)
    // the key is present afterwards, and every row carrying it holds v
    ensures HasKey(r.rows, key, key(v))
    ensures forall x | x in r.rows && key(x.val) == key(v) :: x.val == v
    // rows with other keys are untouched, and no such row appears
    ensures forall x | x in t.rows && key(x.val) != key(v) :: x in r.rows
    ensures forall x | x in r.rows && key(x.val) != key(v) :: x in t.rows
    // existing rows are updated in place
    ensures forall i | 0 <= i < |t.rows| ::
      r.rows[i].id == t.rows[i].id && key(r.rows[i].val) == key(t.rows[i].val)
    ensures UniqueKeys(t.rows, key) ==> UniqueKeys(r.rows, key)
    ensures Valid(t) ==> Valid(r)
  {
    if HasKey(t.rows, key, key(v)) then
      OverwriteMembers(t.rows, key, v);
      OverwriteKeeps(t, key, v);
      Table(Overwrite(t.rows, key, v), t.next)
    else
      var r := Insert(t, v);
      assert forall x | x in r.rows :: x in t.rows || x == Row(t.next, v);
      assert r.rows[|t.rows|] in r.rows;
      r
  }

  /** The UPDATE branch: the key stays present, rows carrying it hold v,
      and rows with other keys are neither lost nor added. */
  lemma OverwriteMembers<T, K>(rows: seq<Row<T>>, key: T -> K, v: T)
    requires HasKey(rows, key, key(v))
    ensures HasKey(Overwrite(rows, key, v), key, key(v))
    ensures forall x | x in Overwrite(rows, key, v) && key(x.val) == key(v) :: x.val == v
    ensures forall x | x in rows && key(x.val) != key(v) :: x in Overwrite(rows, key, v)
    ensures forall x | x in Overwrite(rows, key, v) && key(x.val) != key(v) :: x in rows
  {
    var r := Overwrite(rows, key, v);
    var x0 :| x0 in rows && key(x0.val) == key(v);
    var i0 :| 0 <= i0 < |rows| && rows[i0] == x0;
    assert r[i0] in r;
    forall x | x in rows && key(x.val) != key(v) ensures x in r {
      var i :| 0 <= i < |rows| && rows[i] == x;
      assert r[i] == x;
    }
    forall x | x in r ensures key(x.val) == key(v) ==> x.val == v
      ensures key(x.val) != key(v) ==> x in rows
    {
      var i :| 0 <= i < |r| && r[i] == x;
    }
  }

  /** The UPDATE branch keeps every row's id and key in place, hence unique
      keys and the table's validity. */
  lemma OverwriteKeeps<T, K>(t: Table<T>, key: T -> K, v: T)
    ensures forall i | 0 <= i < |t.rows| ::
      Overwrite(t.rows, key, v)[i].id == t.rows[i].id
      && key(Overwrite(t.rows, key, v)[i].val) == key(t.rows[i].val)
    ensures UniqueKeys(t.rows, key) ==> UniqueKeys(Overwrite(t.rows, key, v), key)
    ensures Valid(t) ==> Valid(Table(Overwrite(t.rows, key, v), t.next))
  {
    var r := Overwrite(t.rows, key, v);
    forall x | x in r ensures exists i :: 0 <= i < |r| && r[i] == x && x.id == t.rows[i].id {
      var i :| 0 <= i < |r| && r[i] == x;
    }
  }

  /** The upserts of vs, one after the other. */
  function UpsertAll<T(==), K(==)>(t: Table<T>, key: T -> K, vs: seq<T>): (r: Table<T>)
    decreases |vs|
  {
    if |vs| == 0 then t else UpsertAll(Upsert(t, key, vs[0]), key, vs[1..])
  }

  /** The batch leaves rows whose key it does not touch as they were, adds no
      row with such a key, and keeps existing rows in place. */
  lemma UpsertAllFrame<T, K>(t: Table<T>, key: T -> K, vs: seq<T>)
    ensures var r := UpsertAll(t, key, vs);
      && |t.rows| <= |r.rows|
      && (forall i | 0 <= i < |t.rows| ::
            r.rows[i].id == t.rows[i].id && key(r.rows[i].val) == key(t.rows[i].val))
      && (forall x | x in t.rows && !Touches(vs, key, key(x.val)) :: x in r.rows)
      && (forall x | x in r.rows && !Touches(vs, key, key(x.val)) :: x in t.rows)
      && (UniqueKeys(t.rows, key) ==> UniqueKeys(r.rows, key))
      && (Valid(t) ==> Valid(r))
  {
    UpsertAllInPlace(t, key, vs);
    UpsertAllUntouched(t, key, vs);
  }

  /** The batch keeps existing rows in place with their ids and keys, and
      preserves unique keys and validity. */
  lemma UpsertAllInPlace<T, K>(t: Table<T>, key: T -> K, vs: seq<T>)
    ensures var r := UpsertAll(t, key, vs);
      && |t.rows| <= |r.rows|
      && (forall i | 0 <= i < |t.rows| ::
            r.rows[i].id == t.rows[i].id && key(r.rows[i].val) == key(t.rows[i].val))
      && (UniqueKeys(t.rows, key) ==> UniqueKeys(r.rows, key))
      && (Valid(t) ==> Valid(r))
  {
    UpsertAllPositions(t, key, vs);
    UpsertAllInvariants(t, key, vs);
  }

  lemma {:induction false} UpsertAllPositions<T, K>(t: Table<T>, key: T -> K, vs: seq<T>)
    ensures var r := UpsertAll(t, key, vs);
      && |t.rows| <= |r.rows|
      && (forall i | 0 <= i < |t.rows| ::
            r.rows[i].id == t.rows[i].id && key(r.rows[i].val) == key(t.rows[i].val))
    decreases |vs|
  {
    if |vs| > 0 {
      var t1 := Upsert(t, key, vs[0]);
      UpsertAllPositions(t1, key, vs[1..]);
      assert UpsertAll(t, key, vs) == UpsertAll(t1, key, vs[1..]);
    }
  }

  lemma {:induction false} UpsertAllInvariants<T, K>(t: Table<T>, key: T -> K, vs: seq<T>)
    ensures UniqueKeys(t.rows, key) ==> UniqueKeys(UpsertAll(t, key, vs).rows, key)
    ensures Valid(t) ==> Valid(UpsertAll(t, key, vs))
    decreases |vs|
  {
    if |vs| > 0 {
      var t1 := Upsert(t, key, vs[0]);
      UpsertAllInvariants(t1, key, vs[1..]);
      assert UpsertAll(t, key, vs) == UpsertAll(t1, key, vs[1..]);
    }
  }

  /** Rows whose key the batch does not touch are kept, and no such row is
      added. */
  lemma {:induction false} UpsertAllUntouched<T, K>(t: Table<T>, key: T -> K, vs: seq<T>)
    ensures var r := UpsertAll(t, key, vs);
      && (forall x | x in t.rows && !Touches(vs, key, key(x.val)) :: x in r.rows)
      && (forall x | x in r.rows && !Touches(vs, key, key(x.val)) :: x in t.rows)
    decreases |vs|
  {
    if |vs| > 0 {
      var t1 := Upsert(t, key, vs[0]);
      UpsertAllUntouched(t1, key, vs[1..]);
      assert UpsertAll(t, key, vs) == UpsertAll(t1, key, vs[1..]);
      forall k | !Touches(vs, key, k)
        ensures k != key(vs[0]) && !Touches(vs[1..], key, k)
      {
        assert vs[0] in vs;
        assert forall v | v in vs[1..] :: v in vs;
      }
    }
  }

  /** Every key of the batch is present afterwards; a row carrying such a key
      holds one of the batch's payloads, namely the LAST one with that key. */
  lemma {:induction false} UpsertAllWrites<T, K>(t: Table<T>, key: T -> K, vs: seq<T>)
    ensures var r := UpsertAll(t, key, vs);
      && (forall v | v in vs :: HasKey(r.rows, key, key(v)))
      && (forall x | x in r.rows && Touches(vs, key, key(x.val)) :: x.val in vs)
      && (forall i, x | 0 <= i < |vs| && !Touches(vs[i + 1..], key, key(vs[i]))
            && x in r.rows && key(x.val) == key(vs[i]) :: x.val == vs[i])
    decreases |vs|
  {
    if |vs| > 0 {
      var t1 := Upsert(t, key, vs[0]);
      var rest := vs[1..];
      UpsertAllWrites(t1, key, rest);
      UpsertAllFrame(t1, key, rest);
      var r := UpsertAll(t, key, vs);
      assert r == UpsertAll(t1, key, rest);
      assert forall v | v in rest :: v in vs;
      forall v | v in vs
        ensures HasKey(r.rows, key, key(v))
      {
        if v != vs[0] || Touches(rest, key, key(v)) {
          if v != vs[0] {
            assert v in rest;
          } else {
            var w :| w in rest && key(w) == key(v);
          }
        } else {
          var x :| x in t1.rows && key(x.val) == key(v);
          assert x in r.rows;
        }
      }
      forall x | x in r.rows && Touches(vs, key, key(x.val))
        ensures x.val in vs
      {
        if !Touches(rest, key, key(x.val)) {
          assert x in t1.rows;
          var w :| w in vs && key(w) == key(x.val);
          if w != vs[0] {
            assert w in rest;
          }
        }
      }
      forall i, x | 0 <= i < |vs| && !Touches(vs[i + 1..], key, key(vs[i]))
          && x in r.rows && key(x.val) == key(vs[i])
        ensures x.val == vs[i]
      {
        if i == 0 {
          assert vs[1..] == rest;
          assert x in t1.rows;
        } else {
          assert rest[i - 1] == vs[i];
          assert rest[i..] == vs[i + 1..];
        }
      }
    }
  }
}
