/**
 The persistence side of the click counter: the `banners_counter` table,
 `BatchData` (an additive upsert into one-minute buckets) and `GetStats`
 (a range query ordered by timestamp). Times are Unix seconds; the database
 engine itself is abstracted to its observable effect on the table.
 */
module Repository {
  import opened Sums

  /** `banners_counter`: (banner id, minute timestamp) -> accumulated value. */
  type Table = map<(int, int), int>

  /** A batch handed over by the aggregator: banner id -> clicks to add. */
  type Batch = map<int, nat>

  /** The clock reading (seconds) taken when the row for a banner id is queued. */
  type Stamp = int -> int

  /** One row of the statistics answer (`model.Counter`). */
  datatype Counter = Counter(id: int, ts: int, v: int)

  /** One queued statement: add `v` to bucket (`id`, `ts`), creating it if missing. */
  datatype Row = Row(id: int, ts: int, v: int)

  datatype Status = Ok | Failed

  /** What `BatchData` leaves behind: the table, the returned error, and how many statements it queued. */
  datatype Reply = Reply(table: Table, status: Status, sent: nat)

  datatype Result<T> = Success(value: T) | Failure

  /** `time.Truncate(time.Minute)` on a reading in seconds. */
  function Minute(s: int): (m: int)
    ensures m % 60 == 0
    ensures m <= s < m + 60
  {
    s - s % 60
  }

  /** The minute bucket is the only multiple of 60 in (s - 60, s]. */
  lemma MinuteUnique(s: int, m: int)
    requires m % 60 == 0 && m <= s < m + 60
    ensures m == Minute(s)
  {
    var q := m / 60;
    var p := Minute(s) / 60;
    assert m == 60 * q;
    assert Minute(s) == 60 * p;
    assert q - 1 < p < q + 1;
  }

  /** The value of a bucket, 0 when it has no row yet. */
  function Get(t: Table, key: (int, int)): int
  {
    if key in t then t[key] else 0
  }

  /** The bucket a banner id's row lands in. */
  function Bucket(id: int, stamp: Stamp): (int, int)
  {
    (id, Minute(stamp(id)))
  }

  /** The buckets a batch writes to. */
  function Buckets(data: Batch, stamp: Stamp): set<(int, int)>
  {
    set id | id in data :: Bucket(id, stamp)
  }

  /** What a batch adds to one bucket. */
  function Contribution(data: Batch, stamp: Stamp, key: (int, int)): nat
  {
    if key.0 in data && key.1 == Minute(stamp(key.0)) then data[key.0] else 0
  }

  /** The table after every row of a batch has been merged in. */
  function Merge(t: Table, data: Batch, stamp: Stamp): (r: Table)
    ensures r.Keys == t.Keys + Buckets(data, stamp)
    ensures forall key: (int, int) :: Get(r, key) == Get(t, key) + Contribution(data, stamp, key)
  {
    var r := map key | key in t.Keys + Buckets(data, stamp) :: Get(t, key) + Contribution(data, stamp, key);
    forall key: (int, int) | key.0 in data && key.1 == Minute(stamp(key.0))
      ensures key in r
    {
      assert key == Bucket(key.0, stamp);
    }
    r
  }

  /** `BatchData`: an empty batch returns nil at once without touching the
      database; otherwise one additive upsert per entry is queued and sent.
      `reachable` says whether the database accepts the batch. */
  function BatchData(t: Table, data: Batch, stamp: Stamp, reachable: bool): Reply
  {
    if data == map[] then Reply(t, Ok, 0)
    else if !reachable then Reply(t, Failed, |data|)
    else Reply(Merge(t, data, stamp), Ok, |data|)
  }

  /** The reply of `BatchData`: an empty batch succeeds without a statement
      and without changing the table, even when the database is down; a
      non-empty one queues one statement per entry and fails exactly when
      the database refuses it, in which case nothing is written. */
  lemma BatchDataReply(t: Table, data: Batch, stamp: Stamp, reachable: bool)
    ensures data == map[] ==> BatchData(t, data, stamp, reachable) == Reply(t, Ok, 0)
    ensures data != map[] ==> BatchData(t, data, stamp, reachable).sent == |data|
    ensures BatchData(t, data, stamp, reachable).status == Failed <==> data != map[] && !reachable
    ensures BatchData(t, data, stamp, reachable).status == Failed ==> BatchData(t, data, stamp, reachable).table == t
  {
  }

  /** What a `BatchData` call does to one bucket: on success it gains the
      batch's contribution and exists afterwards if it existed or is written. */
  lemma BatchDataAt(t: Table, data: Batch, stamp: Stamp, reachable: bool, key: (int, int))
    ensures BatchData(t, data, stamp, reachable).status == Ok ==>
              Get(BatchData(t, data, stamp, reachable).table, key) == Get(t, key) + Contribution(data, stamp, key)
    ensures BatchData(t, data, stamp, reachable).status == Ok ==>
              (key in BatchData(t, data, stamp, reachable).table <==> key in t || key in Buckets(data, stamp))
  {
    if data == map[] {
      assert Contribution(data, stamp, key) == 0;
      assert Buckets(data, stamp) == {};
    }
  }

  /** What a `BatchData` call does to the table: each entry is added into the
      minute bucket of its own clock reading, never overwriting; buckets of
      other banners are untouched; new buckets are minute-aligned and lie in
      the minute before the reading. */
  lemma BatchDataWrites(t: Table, data: Batch, stamp: Stamp, reachable: bool)
    ensures BatchData(t, data, stamp, reachable).status == Ok ==>
              forall key: (int, int) ::
                Get(BatchData(t, data, stamp, reachable).table, key) == Get(t, key) + Contribution(data, stamp, key)
    ensures BatchData(t, data, stamp, reachable).status == Ok ==>
              BatchData(t, data, stamp, reachable).table.Keys == t.Keys + Buckets(data, stamp)
    ensures forall key: (int, int) :: key in t ==>
              key in BatchData(t, data, stamp, reachable).table
              && BatchData(t, data, stamp, reachable).table[key] >= t[key]
    ensures forall key: (int, int) :: key.0 !in data ==>
              (key in BatchData(t, data, stamp, reachable).table <==> key in t)
              && Get(BatchData(t, data, stamp, reachable).table, key) == Get(t, key)
    ensures forall key: (int, int) :: key in BatchData(t, data, stamp, reachable).table && key !in t ==>
              key.1 % 60 == 0 && key.0 in data && stamp(key.0) - 60 < key.1 <= stamp(key.0)
  {
    var r := BatchData(t, data, stamp, reachable);
    if r.status == Ok && data != map[] {
      forall key: (int, int) | key in r.table && key !in t
        ensures key.1 % 60 == 0 && key.0 in data && stamp(key.0) - 60 < key.1 <= stamp(key.0)
      {
        assert key in Buckets(data, stamp);
      }
    }
  }

  /** The statements queued by the loop over the batch, in the order the map is ranged over. */
  function Queue(data: Batch, order: seq<int>, stamp: Stamp): (rows: seq<Row>)
    requires forall i :: 0 <= i < |order| ==> order[i] in data
    ensures |rows| == |order|
    ensures forall k :: 0 <= k < |order| ==> rows[k] == Row(order[k], Minute(stamp(order[k])), data[order[k]])
  {
    if order == [] then []
    else [Row(order[0], Minute(stamp(order[0])), data[order[0]])] + Queue(data, order[1..], stamp)
  }

  /** One queued statement: create the row's bucket if it is missing, then add the row's value to it. */
  function Upsert(t: Table, row: Row): (r: Table)
    ensures r.Keys == t.Keys + {(row.id, row.ts)}
    ensures forall key: (int, int) :: Get(r, key) == Get(t, key) + (if key == (row.id, row.ts) then row.v else 0)
  {
    t[(row.id, row.ts) := Get(t, (row.id, row.ts)) + row.v]
  }

  /** What the statements naming bucket `key` add to it. */
  function RowsFor(rows: seq<Row>, key: (int, int)): int
  {
    if rows == [] then 0
    else (if (rows[0].id, rows[0].ts) == key then rows[0].v else 0) + RowsFor(rows[1..], key)
  }

  /** Some statement names bucket `key`. */
  predicate Names(rows: seq<Row>, key: (int, int))
  {
    rows != [] && ((rows[0].id, rows[0].ts) == key || Names(rows[1..], key))
  }

  /** Executing queued statements one after another. */
  function Exec(t: Table, rows: seq<Row>): Table
    decreases |rows|
  {
    if rows == [] then t else Exec(Upsert(t, rows[0]), rows[1..])
  }

  /** What executing the statements does to one bucket: it gains what the
      statements naming it carry, and exists afterwards exactly when it
      existed before or some statement names it. */
  lemma {:induction false} ExecAt(t: Table, rows: seq<Row>, key: (int, int))
    decreases |rows|
    ensures Get(Exec(t, rows), key) == Get(t, key) + RowsFor(rows, key)
    ensures key in Exec(t, rows) <==> key in t || Names(rows, key)
  {
    if rows != [] {
      ExecAt(Upsert(t, rows[0]), rows[1..], key);
    }
  }

  /** The sum of the values of queued statements. */
  function RowsTotal(rows: seq<Row>): int
  {
    if rows == [] then 0 else rows[0].v + RowsTotal(rows[1..])
  }

  /** Queued statements only read the batch at the ids they list. */
  lemma {:induction false} QueueReadsListed(d1: Batch, d2: Batch, order: seq<int>, stamp: Stamp)
    requires forall i :: 0 <= i < |order| ==> order[i] in d1 && order[i] in d2 && d1[order[i]] == d2[order[i]]
    ensures Queue(d1, order, stamp) == Queue(d2, order, stamp)
  {
    if order != [] {
      QueueReadsListed(d1, d2, order[1..], stamp);
    }
  }

  /** The number of statements `BatchData` reports as sent is the number the
      loop over the batch queues, whatever order the map is ranged over. */
  lemma BatchDataSendsQueue(t: Table, data: Batch, order: seq<int>, stamp: Stamp, reachable: bool)
    requires data != map[] && Enumerates(order, data.Keys)
    ensures |Queue(data, order, stamp)| == BatchData(t, data, stamp, reachable).sent
  {
    EnumeratesCard(order, data.Keys);
    assert |data.Keys| == |data|;
  }

  /** Upserting a bucket first and merging the rest of the batch afterwards is merging the whole batch. */
  lemma MergeAfterUpsert(t: Table, data: Batch, a: int, stamp: Stamp)
    requires a in data
    ensures Merge(Upsert(t, Row(a, Minute(stamp(a)), data[a])), data - {a}, stamp) == Merge(t, data, stamp)
  {
    var lhs := Merge(Upsert(t, Row(a, Minute(stamp(a)), data[a])), data - {a}, stamp);
    var rhs := Merge(t, data, stamp);
    assert Buckets(data, stamp) == Buckets(data - {a}, stamp) + {Bucket(a, stamp)};
    assert lhs.Keys == rhs.Keys;
    forall key: (int, int) | key in lhs
      ensures lhs[key] == rhs[key]
    {
      assert Get(lhs, key) == Get(rhs, key);
    }
  }

  /** Whatever order Go's `range` visits the batch in, executing the queued
      statements yields the merged table: the rows of one batch commute. */
  lemma {:induction false} QueueRealisesMerge(t: Table, data: Batch, order: seq<int>, stamp: Stamp)
    requires Enumerates(order, data.Keys)
    ensures Exec(t, Queue(data, order, stamp)) == Merge(t, data, stamp)
    decreases |order|
  {
    if order == [] {
      assert data.Keys == {};
      assert Merge(t, data, stamp) == t;
    } else {
      var a := order[0];
      var rest := order[1..];
      var d' := data - {a};
      EnumeratesTail(order, data.Keys);
      assert d'.Keys == data.Keys - {a};
      QueueReadsListed(data, d', rest, stamp);
      var row := Row(a, Minute(stamp(a)), data[a]);
      assert Queue(data, order, stamp) == [row] + Queue(d', rest, stamp);
      QueueRealisesMerge(Upsert(t, row), d', rest, stamp);
      MergeAfterUpsert(t, data, a, stamp);
    }
  }

  /** One upsert raises the table's total by exactly the row's value. */
  lemma UpsertTotal(t: Table, row: Row)
    ensures Sum(Upsert(t, row)) == Sum(t) + row.v
  {
    var key := (row.id, row.ts);
    var u := Upsert(t, row);
    SumRemove(u, key);
    if key in t {
      SumRemove(t, key);
      assert u - {key} == t - {key};
    } else {
      assert u - {key} == t;
    }
  }

  lemma {:induction false} ExecTotal(t: Table, rows: seq<Row>)
    ensures Sum(Exec(t, rows)) == Sum(t) + RowsTotal(rows)
    decreases |rows|
  {
    if rows != [] {
      UpsertTotal(t, rows[0]);
      ExecTotal(Upsert(t, rows[0]), rows[1..]);
    }
  }

  lemma {:induction false} QueueTotal(data: Batch, order: seq<int>, stamp: Stamp)
    requires Enumerates(order, data.Keys)
    ensures RowsTotal(Queue(data, order, stamp)) == Sum(data)
    decreases |order|
  {
    if order == [] {
      assert data == map[];
    } else {
      var a := order[0];
      var rest := order[1..];
      var d' := data - {a};
      EnumeratesTail(order, data.Keys);
      assert d'.Keys == data.Keys - {a};
      QueueReadsListed(data, d', rest, stamp);
      QueueTotal(d', rest, stamp);
      SumRemove(data, a);
    }
  }

  /** A successful batch raises the total of all buckets by exactly the sum of its values. */
  lemma BatchDataTotal(t: Table, data: Batch, stamp: Stamp, reachable: bool)
    ensures var r := BatchData(t, data, stamp, reachable);
      Sum(r.table) == Sum(t) + (if r.status == Ok then Sum(data) else 0)
  {
    if data == map[] {
      assert Sum(data) == 0;
    } else if reachable {
      var order := Enumerate(data.Keys);
      QueueRealisesMerge(t, data, order, stamp);
      ExecTotal(t, Queue(data, order, stamp));
      QueueTotal(data, order, stamp);
    }
  }

  /** Two successful batches give the same table in either order: writes to a
      shared bucket add up, never overwrite. */
  lemma BatchDataCommutes(t: Table, d1: Batch, s1: Stamp, d2: Batch, s2: Stamp)
    ensures BatchData(BatchData(t, d1, s1, true).table, d2, s2, true).table
         == BatchData(BatchData(t, d2, s2, true).table, d1, s1, true).table
  {
    BatchDataMerges(t, d1, s1);
    BatchDataMerges(t, d2, s2);
    BatchDataMerges(Merge(t, d1, s1), d2, s2);
    BatchDataMerges(Merge(t, d2, s2), d1, s1);
    MergeCommutes(t, d1, s1, d2, s2);
  }

  /** Towards an accepting database, `BatchData` is a plain merge (an empty batch merges nothing). */
  lemma BatchDataMerges(t: Table, data: Batch, stamp: Stamp)
    ensures BatchData(t, data, stamp, true).table == Merge(t, data, stamp)
  {
    if data == map[] {
      var m := Merge(t, data, stamp);
      assert Buckets(data, stamp) == {};
      assert m.Keys == t.Keys;
      forall key | key in m ensures m[key] == t[key] {
        assert Get(m, key) == Get(t, key) + Contribution(data, stamp, key);
      }
    }
  }

  lemma MergeCommutes(t: Table, d1: Batch, s1: Stamp, d2: Batch, s2: Stamp)
    ensures Merge(Merge(t, d1, s1), d2, s2) == Merge(Merge(t, d2, s2), d1, s1)
  {
    var a := Merge(Merge(t, d1, s1), d2, s2);
    var b := Merge(Merge(t, d2, s2), d1, s1);
    assert a.Keys == b.Keys;
    forall key | key in a ensures a[key] == b[key] {
      assert Get(a, key) == Get(b, key);
    }
  }

  /** Rows sorted by strictly increasing timestamp. */
  predicate Ascending(rows: seq<Counter>)
  {
    forall i, j :: 0 <= i < j < |rows| ==> rows[i].ts < rows[j].ts
  }

  /** The rows of banner `id` with `ts` in [from, to], found by scanning the timestamps upward. */
  function Scan(t: Table, id: int, from: int, to: int): (rows: seq<Counter>)
    decreases to - from
    ensures Ascending(rows)
    ensures forall c :: c in rows ==> c.id == id && from <= c.ts <= to && (id, c.ts) in t && t[(id, c.ts)] == c.v
    ensures forall key: (int, int) :: key in t && key.0 == id && from <= key.1 <= to ==> Counter(id, key.1, t[key]) in rows
  {
    if from > to then []
    else
      var here := if (id, from) in t then [Counter(id, from, t[(id, from)])] else [];
      here + Scan(t, id, from + 1, to)
  }

  /** `GetStats`: the rows of banner `id` whose timestamp lies between `from`
      and `to` inclusive, earliest first; a failing query yields an error. */
  function GetStats(t: Table, id: int, from: int, to: int, reachable: bool): (r: Result<seq<Counter>>)
    ensures r.Success? <==> reachable
    ensures r.Success? ==> Ascending(r.value)
    ensures r.Success? ==> forall c :: c in r.value ==>
              c.id == id && from <= c.ts <= to && (id, c.ts) in t && t[(id, c.ts)] == c.v
    ensures r.Success? ==> forall key: (int, int) :: key in t && key.0 == id && from <= key.1 <= to ==>
              Counter(id, key.1, t[key]) in r.value
  {
    if reachable then Success(Scan(t, id, from, to)) else Failure
  }
}
