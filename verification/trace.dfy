/**
 Runs of the service: a sequence of clicks and flush ticks applied to one
 aggregator and one table. Conservation ties the two sides together: every
 click is either still live in the cache or has been handed to `BatchData`,
 exactly once.
 */
module Trace {
  import opened InMemory
  import opened Repository
  import opened Usecase

  /** Something that happens to the service: a click on a banner (an
      `Increment`), or a tick of the flush timer (a `FlushToDB` with the
      clock readings and the database's answers of that moment). */
  datatype Event = Click(id: int) | Tick(now: Clock, accepts: nat -> bool)

  /** The number of clicks on `k` among the events. */
  function Clicks(events: seq<Event>, k: int): nat
  {
    if events == [] then 0
    else (if events[0] == Click(k) then 1 else 0) + Clicks(events[1..], k)
  }

  /** One event applied to the aggregator and the table. */
  function Step(u: State, t: Table, route: Router, e: Event): (r: Flushed)
    requires InRange(route, |u.shards|)
    ensures |r.state.shards| == |u.shards|
  {
    match e
    case Click(id) => Flushed(Increment(u, route, id), t, [])
    case Tick(now, accepts) => FlushToDB(u, t, now, accepts)
  }

  /** The events applied in order: the final aggregator, the final table and
      every `BatchData` call made on the way. */
  function Run(u: State, t: Table, route: Router, events: seq<Event>): (r: Flushed)
    requires InRange(route, |u.shards|)
    ensures |r.state.shards| == |u.shards|
    decreases |events|
  {
    if events == [] then Flushed(u, t, [])
    else
      var first := Step(u, t, route, events[0]);
      var rest := Run(first.state, first.table, route, events[1..]);
      Flushed(rest.state, rest.table, first.calls + rest.calls)
  }

  /** One event keeps every key in its routed shard and conserves clicks:
      what it emits plus what stays live is what was live plus what it adds. */
  lemma StepConserves(u: State, t: Table, route: Router, e: Event, k: int)
    requires InRange(route, |u.shards|) && Routed(route, u.shards)
    ensures Routed(route, Step(u, t, route, e).state.shards)
    ensures Emitted(Step(u, t, route, e).calls, k) + Live(route, Step(u, t, route, e).state.shards, k)
            == Live(route, u.shards, k) + (if e == Click(k) then 1 else 0)
  {
    match e
    case Click(id) =>
    case Tick(now, accepts) =>
      FlushEmits(u, route, t, now, accepts, k);
  }

  /** Conservation over a whole run: every click on `k` is either still live
      at the end or was handed to `BatchData` in exactly one call. */
  lemma {:induction false} RunConserves(u: State, t: Table, route: Router, events: seq<Event>, k: int)
    requires InRange(route, |u.shards|) && Routed(route, u.shards)
    decreases |events|
    ensures Routed(route, Run(u, t, route, events).state.shards)
    ensures Emitted(Run(u, t, route, events).calls, k) + Live(route, Run(u, t, route, events).state.shards, k)
            == Live(route, u.shards, k) + Clicks(events, k)
  {
    if events != [] {
      var first := Step(u, t, route, events[0]);
      StepConserves(u, t, route, events[0], k);
      RunConserves(first.state, first.table, route, events[1..], k);
      var rest := Run(first.state, first.table, route, events[1..]);
      EmittedAppend(first.calls, rest.calls, k);
    }
  }

  /** Running two stretches of events one after the other is running them together. */
  lemma {:induction false} RunAppend(u: State, t: Table, route: Router, a: seq<Event>, b: seq<Event>)
    requires InRange(route, |u.shards|)
    decreases |a|
    ensures Run(u, t, route, a + b)
            == var ra := Run(u, t, route, a);
               var rb := Run(ra.state, ra.table, route, b);
               Flushed(rb.state, rb.table, ra.calls + rb.calls)
  {
    if a == [] {
      assert a + b == b;
    } else {
      var first := Step(u, t, route, a[0]);
      assert (a + b)[0] == a[0];
      assert (a + b)[1..] == a[1..] + b;
      RunAppend(first.state, first.table, route, a[1..], b);
      var ra' := Run(first.state, first.table, route, a[1..]);
      var rb := Run(ra'.state, ra'.table, route, b);
      assert first.calls + (ra'.calls + rb.calls) == (first.calls + ra'.calls) + rb.calls;
    }
  }

  /** Nothing is lost: starting from a fresh cache, once the last event is a
      flush, every click on `k` has been handed to `BatchData`, and none twice. */
  lemma NothingLost(n: nat, t: Table, route: Router, events: seq<Event>, now: Clock, accepts: nat -> bool, k: int)
    requires InRange(route, n)
    ensures Emitted(Run(New(Empty(n)), t, route, events + [Tick(now, accepts)]).calls, k) == Clicks(events, k)
  {
    var u := New(Empty(n));
    EmptyRouted(route, n);
    var mid := Run(u, t, route, events);
    RunConserves(u, t, route, events, k);
    RunAppend(u, t, route, events, [Tick(now, accepts)]);
    var last := FlushToDB(mid.state, mid.table, now, accepts);
    assert Run(mid.state, mid.table, route, [Tick(now, accepts)]).calls == last.calls + [];
    assert last.calls + [] == last.calls;
    FlushEmits(mid.state, route, mid.table, now, accepts, k);
    EmittedAppend(mid.calls, last.calls, k);
  }

  /** Banner `k` has no entry in any shard. */
  predicate Absent(shards: seq<Shard>, k: int)
  {
    forall i :: 0 <= i < |shards| ==> k !in shards[i]
  }

  /** No call carries banner `k`. */
  predicate NotSent(calls: seq<Call>, k: int)
  {
    forall a :: 0 <= a < |calls| ==> k !in calls[a].batch
  }

  /** An event other than a click on `k` adds no entry for `k` and sends none. */
  lemma StepNeverSends(u: State, t: Table, route: Router, e: Event, k: int)
    requires InRange(route, |u.shards|) && Absent(u.shards, k) && e != Click(k)
    ensures Absent(Step(u, t, route, e).state.shards, k)
    ensures NotSent(Step(u, t, route, e).calls, k)
  {
  }

  /** A banner enters a shard only through a click: if it has no entry and is
      never clicked, no shard ever holds it and no call ever carries it, not
      even with a count of zero. */
  lemma {:induction false} NeverClickedNeverSent(u: State, t: Table, route: Router, events: seq<Event>, k: int)
    requires InRange(route, |u.shards|) && Absent(u.shards, k) && Clicks(events, k) == 0
    decreases |events|
    ensures Absent(Run(u, t, route, events).state.shards, k)
    ensures NotSent(Run(u, t, route, events).calls, k)
  {
    if events != [] {
      var first := Step(u, t, route, events[0]);
      StepNeverSends(u, t, route, events[0], k);
      NeverClickedNeverSent(first.state, first.table, route, events[1..], k);
      var rest := Run(first.state, first.table, route, events[1..]);
      forall a | 0 <= a < |first.calls + rest.calls|
        ensures k !in (first.calls + rest.calls)[a].batch
      {
        if a >= |first.calls| {
          assert (first.calls + rest.calls)[a] == rest.calls[a - |first.calls|];
        }
      }
    }
  }

  /** A clock that reads `t0` for every row of every call. */
  function Fixed(t0: int): Clock
  {
    (i: nat) => (k: int) => t0
  }

  /** A database that accepts every call. */
  function Always(): nat -> bool
  {
    (i: nat) => true
  }

  /** With one clock reading for everything, a bucket of the current minute
      receives every click its banner's calls carry, and other buckets nothing. */
  lemma {:induction false} DeliveredFixed(calls: seq<Call>, t0: int, key: (int, int))
    ensures Delivered(calls, Fixed(t0), Always(), key)
            == if key.1 == Minute(t0) then Emitted(calls, key.0) else 0
  {
    if calls != [] {
      DeliveredFixed(calls[1..], t0, key);
    }
  }

  /** With one clock reading for everything, calls that carry banner `id`
      alone write no bucket but that banner's bucket of the current minute. */
  lemma {:induction false} WrittenOnly(calls: seq<Call>, t0: int, id: int, key: (int, int))
    requires forall a, k :: 0 <= a < |calls| && k in calls[a].batch ==> k == id
    requires Written(calls, Fixed(t0), Always(), key)
    ensures key == (id, Minute(t0))
  {
    var stamp := Fixed(t0)(calls[0].shard);
    if key in Buckets(calls[0].batch, stamp) {
      var k :| k in calls[0].batch && key == Bucket(k, stamp);
    } else {
      WrittenOnly(calls[1..], t0, id, key);
    }
  }

  /** Scanning a one-bucket table from `from` up finds its row exactly when it lies in range. */
  lemma {:induction false} ScanSingle(id: int, ts: int, v: int, from: int, to: int)
    decreases to - from
    ensures Scan(map[(id, ts) := v], id, from, to)
            == if from <= ts <= to then [Counter(id, ts, v)] else []
  {
    var t := map[(id, ts) := v];
    if from <= to {
      ScanSingle(id, ts, v, from + 1, to);
      if from == ts {
        assert Scan(t, id, from, to) == [Counter(id, ts, v)] + Scan(t, id, from + 1, to);
      } else {
        assert Scan(t, id, from, to) == [] + Scan(t, id, from + 1, to);
      }
    }
  }

  /** One more click on `id` keeps `id` the only banner in the cache. */
  lemma OnlyClicked(route: Router, id: int, u: State)
    requires InRange(route, |u.shards|)
    requires forall i, k :: 0 <= i < |u.shards| && k in u.shards[i] ==> k == id
    ensures forall i, k :: 0 <= i < |u.shards| && k in Increment(u, route, id).shards[i] ==> k == id
  {
  }

  /** With one clock reading and the database up, a flush adds each banner's
      live count to its bucket of the current minute. */
  lemma FlushAddsLive(u: State, route: Router, t: Table, t0: int, id: int)
    requires InRange(route, |u.shards|) && Routed(route, u.shards)
    ensures Get(FlushToDB(u, t, Fixed(t0), Always()).table, (id, Minute(t0)))
            == Get(t, (id, Minute(t0))) + Live(route, u.shards, id)
  {
    var f := FlushToDB(u, t, Fixed(t0), Always());
    FlushEmits(u, route, t, Fixed(t0), Always(), id);
    DeliveredFixed(f.calls, t0, (id, Minute(t0)));
  }

  /** A flush of a cache holding clicks for banner `id` alone sends batches
      carrying that banner alone. */
  lemma FlushCarriesOnly(u: State, t: Table, now: Clock, accepts: nat -> bool, id: int)
    requires forall i, k :: 0 <= i < |u.shards| && k in u.shards[i] ==> k == id
    ensures forall a, k ::
              (0 <= a < |FlushToDB(u, t, now, accepts).calls| && k in FlushToDB(u, t, now, accepts).calls[a].batch)
              ==> k == id
  {
    var calls := FlushToDB(u, t, now, accepts).calls;
    forall a, k | 0 <= a < |calls| && k in calls[a].batch
      ensures k == id
    {
      assert k in u.shards[calls[a].shard];
    }
  }

  /** With one clock reading and the database up, a flush into an empty table
      of a cache holding clicks for banner `id` alone creates no bucket but
      that banner's bucket of the current minute. */
  lemma FlushKeysOnly(u: State, id: int, t0: int)
    requires forall i, k :: 0 <= i < |u.shards| && k in u.shards[i] ==> k == id
    ensures forall key :: key in FlushToDB(u, map[], Fixed(t0), Always()).table ==> key == (id, Minute(t0))
  {
    var f := FlushToDB(u, map[], Fixed(t0), Always());
    FlushCarriesOnly(u, map[], Fixed(t0), Always(), id);
    forall key | key in f.table
      ensures key == (id, Minute(t0))
    {
      WrittenOnly(f.calls, t0, id, key);
    }
  }

  /** A flush into an empty table, with one clock reading and the database
      up, of a cache holding clicks for banner `id` alone: the table ends up
      with that banner's bucket of the current minute and nothing else. */
  lemma FlushOnly(u: State, route: Router, id: int, t0: int)
    requires InRange(route, |u.shards|) && Routed(route, u.shards)
    requires forall i, k :: 0 <= i < |u.shards| && k in u.shards[i] ==> k == id
    requires Live(route, u.shards, id) > 0
    ensures FlushToDB(u, map[], Fixed(t0), Always()).table == map[(id, Minute(t0)) := Live(route, u.shards, id)]
  {
    var table := FlushToDB(u, map[], Fixed(t0), Always()).table;
    FlushAddsLive(u, route, map[], t0, id);
    FlushKeysOnly(u, id, t0);
    SingleBucket(table, (id, Minute(t0)), Live(route, u.shards, id));
  }

  /** A table whose only possible bucket holds a positive value is that one bucket. */
  lemma SingleBucket(table: Table, key: (int, int), v: int)
    requires forall k :: k in table ==> k == key
    requires Get(table, key) == v && v > 0
    ensures table == map[key := v]
  {
    assert key in table;
    assert table.Keys == {key};
  }

  /** Three clicks on banner 42 into a fresh cache: the banner is the only
      one held, it is held in its routed shard, with a live count of 3. */
  lemma ThreeClicks(n: nat, route: Router) returns (u: State)
    requires InRange(route, n)
    ensures u == Increment(Increment(Increment(New(Empty(n)), route, 42), route, 42), route, 42)
    ensures |u.shards| == n && Routed(route, u.shards)
    ensures forall i, k :: 0 <= i < n && k in u.shards[i] ==> k == 42
    ensures Live(route, u.shards, 42) == 3
  {
    var u0 := New(Empty(n));
    EmptyRouted(route, n);
    var u1 := Increment(u0, route, 42);
    var u2 := Increment(u1, route, 42);
    u := Increment(u2, route, 42);
    OnlyClicked(route, 42, u0);
    OnlyClicked(route, 42, u1);
    OnlyClicked(route, 42, u2);
  }

  /** A click at the head of a run is an increment before the rest. */
  lemma RunClick(u: State, t: Table, route: Router, id: int, rest: seq<Event>)
    requires InRange(route, |u.shards|)
    ensures Run(u, t, route, [Click(id)] + rest).table == Run(Increment(u, route, id), t, route, rest).table
  {
    assert ([Click(id)] + rest)[1..] == rest;
  }

  /** A run of a single tick is one flush. */
  lemma RunTick(u: State, t: Table, route: Router, now: Clock, accepts: nat -> bool)
    requires InRange(route, |u.shards|)
    ensures Run(u, t, route, [Tick(now, accepts)]).table == FlushToDB(u, t, now, accepts).table
  {
    assert [Tick(now, accepts)][1..] == [];
  }

  /** Three clicks and a tick run as three increments followed by one flush. */
  lemma RunThreeClicksOneTick(u: State, t: Table, route: Router, a: int, b: int, c: int, now: Clock, accepts: nat -> bool)
    requires InRange(route, |u.shards|)
    ensures Run(u, t, route, [Click(a), Click(b), Click(c), Tick(now, accepts)]).table
            == FlushToDB(Increment(Increment(Increment(u, route, a), route, b), route, c), t, now, accepts).table
  {
    var u1 := Increment(u, route, a);
    var u2 := Increment(u1, route, b);
    var u3 := Increment(u2, route, c);
    RunClick(u, t, route, a, [Click(b), Click(c), Tick(now, accepts)]);
    assert [Click(a), Click(b), Click(c), Tick(now, accepts)] == [Click(a)] + [Click(b), Click(c), Tick(now, accepts)];
    RunClick(u1, t, route, b, [Click(c), Tick(now, accepts)]);
    assert [Click(b), Click(c), Tick(now, accepts)] == [Click(b)] + [Click(c), Tick(now, accepts)];
    RunClick(u2, t, route, c, [Tick(now, accepts)]);
    assert [Click(c), Tick(now, accepts)] == [Click(c)] + [Tick(now, accepts)];
    RunTick(u3, t, route, now, accepts);
  }

  /** Three clicks on banner 42 and one flush into an empty table, with the
      database up: the banner's bucket for the current minute holds 3, no
      other bucket exists, and the statistics for the surrounding hour are
      exactly that one row. */
  lemma ThreeClicksOneFlush(n: nat, route: Router, t0: int)
    requires InRange(route, n)
    ensures Run(New(Empty(n)), map[], route, [Click(42), Click(42), Click(42), Tick(Fixed(t0), Always())]).table
            == map[(42, Minute(t0)) := 3]
    ensures Usecase.GetStats(map[(42, Minute(t0)) := 3], 42, t0 - 3600, t0 + 3600, true)
            == Success([Counter(42, Minute(t0), 3)])
  {
    var u := ThreeClicks(n, route);
    FlushOnly(u, route, 42, t0);
    RunThreeClicksOneTick(New(Empty(n)), map[], route, 42, 42, 42, Fixed(t0), Always());
    ScanSingle(42, Minute(t0), 3, t0 - 3600, t0 + 3600);
  }
}
