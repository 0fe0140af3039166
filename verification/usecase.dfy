/**
 The click aggregator (`Usecase`): `Increment` bumps one banner's count in
 its shard; `FlushToDB` drains every shard in order through the reusable
 buffer and hands each non-empty snapshot to `BatchData`, ignoring the
 error it returns. Each call is one atomic step of a sequential machine.
 */
module Usecase {
  import opened Sums
  import opened InMemory
  import opened Repository

  /** The `Usecase` struct: the cache's shards and the reusable buffer. */
  datatype State = State(shards: seq<Shard>, buffer: Batch)

  /** One `BatchData` call issued by a flush: the shard it drained and the batch it sent. */
  datatype Call = Call(shard: nat, batch: Batch)

  /** The clock: `now(i)(k)` is the reading taken when shard `i`'s call queues the row of banner id `k`. */
  type Clock = nat -> Stamp

  /** The result of a flush: the new state, the table afterwards, the calls in the order issued. */
  datatype Flushed = Flushed(state: State, table: Table, calls: seq<Call>)

  /** `New`: the usecase over a given cache, with an empty buffer. */
  function New(shards: seq<Shard>): (u: State)
    ensures u.buffer == map[]
    ensures u.shards == shards
  {
    State(shards, map[])
  }

  /** `Increment(id)`: one more click for `id`, in the shard that owns it. */
  function Increment(u: State, route: Router, id: int): (r: State)
    requires InRange(route, |u.shards|)
    ensures |r.shards| == |u.shards| && r.buffer == u.buffer
    ensures forall k :: Live(route, r.shards, k) == Live(route, u.shards, k) + (if k == id then 1 else 0)
    ensures var i := route(id, |u.shards|);
      && r.shards[i].Keys == u.shards[i].Keys + {id}
      && r.shards[i] - {id} == u.shards[i] - {id}
      && Count(r.shards[i], id) == Count(u.shards[i], id) + 1
    ensures forall j :: 0 <= j < |u.shards| && j != route(id, |u.shards|) ==> r.shards[j] == u.shards[j]
    ensures Routed(route, u.shards) ==> Routed(route, r.shards)
  {
    var i := GetShard(route, u.shards, id);
    var sh := u.shards[i];
    State(u.shards[i := sh[id := Count(sh, id) + 1]], u.buffer)
  }

  /** `maps.Copy(dst, src)`: every entry of `src` is written over `dst`. */
  function Copy(dst: Batch, src: Batch): (r: Batch)
    ensures forall k :: k in r <==> k in dst || k in src
    ensures forall k :: k in r ==> r[k] == (if k in src then src[k] else dst[k])
  {
    dst + src
  }

  /** Clearing the buffer and then copying a shard into it: whatever the
      buffer held from the previous shard, it now holds exactly that shard. */
  function Refill(buffer: Batch, data: Batch): (r: Batch)
    ensures r == data
  {
    var cleared := buffer - buffer.Keys;
    Copy(cleared, data)
  }

  /** Shard indices strictly increase along the calls. */
  predicate Increasing(calls: seq<Call>)
  {
    forall a, b :: 0 <= a < b < |calls| ==> calls[a].shard < calls[b].shard
  }

  /** Some call drained shard `j`. */
  predicate Sent(calls: seq<Call>, j: nat)
  {
    exists a :: 0 <= a < |calls| && calls[a].shard == j
  }

  /** What the accepted calls add to one bucket. */
  function Delivered(calls: seq<Call>, now: Clock, accepts: nat -> bool, key: (int, int)): nat
  {
    if calls == [] then 0
    else
      (if accepts(calls[0].shard) then Contribution(calls[0].batch, now(calls[0].shard), key) else 0)
      + Delivered(calls[1..], now, accepts, key)
  }

  /** Some accepted call writes a row into bucket `key`. */
  predicate Written(calls: seq<Call>, now: Clock, accepts: nat -> bool, key: (int, int))
  {
    if calls == [] then false
    else
      (accepts(calls[0].shard) && key in Buckets(calls[0].batch, now(calls[0].shard)))
      || Written(calls[1..], now, accepts, key)
  }

  /** The first half of one turn of the loop: under the shard's lock, clear the buffer, copy
      the shard into it and give the shard a fresh empty map. */
  function Drain(u: State, i: nat): (r: State)
    requires i < |u.shards|
    ensures |r.shards| == |u.shards|
    ensures r.shards[i] == map[]
    ensures forall j :: 0 <= j < |u.shards| && j != i ==> r.shards[j] == u.shards[j]
    ensures r.buffer == u.shards[i]
  {
    State(u.shards[i := map[]], Refill(u.buffer, u.shards[i]))
  }

  /** The repository's `BatchData` as the loop sees it, through the
      `Repository` interface: the table before and the call made, giving the
      table after. The error it returns is not part of the picture, because
      the loop drops it. */
  type Sender = (Table, Call) -> Table

  /** The `BatchData` of this model's repository behind that interface: the
      call for shard `i` reads the clock `now(i)` and is accepted by the
      database exactly when `accepts(i)`. */
  function Deliver(now: Clock, accepts: nat -> bool): Sender
  {
    (t: Table, c: Call) => BatchData(t, c.batch, now(c.shard), accepts(c.shard)).table
  }

  /** The loop of `FlushToDB` from shard `i` on: drain shard `i` into the
      buffer, send the buffer if it is non-empty, drop the error, go on. */
  function FlushFrom(u: State, i: nat, t: Table, send: Sender): (r: Flushed)
    requires i <= |u.shards|
    decreases |u.shards| - i
    ensures |r.state.shards| == |u.shards|
    ensures forall j :: 0 <= j < i ==> r.state.shards[j] == u.shards[j]
    ensures forall j :: i <= j < |u.shards| ==> r.state.shards[j] == map[]
  {
    if i == |u.shards| then Flushed(u, t, [])
    else
      var drained := Drain(u, i);
      if drained.buffer == map[] then FlushFrom(drained, i + 1, t, send)
      else
        var rest := FlushFrom(drained, i + 1, send(t, Call(i, drained.buffer)), send);
        Flushed(rest.state, rest.table, [Call(i, drained.buffer)] + rest.calls)
  }

  /** The calls a flush makes from shard `i` on, read off the shards alone:
      one per non-empty shard, in index order, carrying its contents. */
  function Pending(shards: seq<Shard>, i: nat): seq<Call>
    requires i <= |shards|
    decreases |shards| - i
  {
    if i == |shards| then []
    else if shards[i] == map[] then Pending(shards, i + 1)
    else [Call(i, shards[i])] + Pending(shards, i + 1)
  }

  /** `Pending` only looks at the shards from `i` on. */
  lemma {:induction false} PendingReadsFrom(s1: seq<Shard>, s2: seq<Shard>, i: nat)
    requires i <= |s1| == |s2|
    requires forall j :: i <= j < |s1| ==> s1[j] == s2[j]
    ensures Pending(s1, i) == Pending(s2, i)
    decreases |s1| - i
  {
    if i < |s1| {
      PendingReadsFrom(s1, s2, i + 1);
    }
  }

  /** Each call `Pending` lists is a non-empty shard's whole contents. */
  lemma {:induction false} PendingCalls(shards: seq<Shard>, i: nat)
    requires i <= |shards|
    decreases |shards| - i
    ensures forall a :: 0 <= a < |Pending(shards, i)| ==>
              i <= Pending(shards, i)[a].shard < |shards|
              && Pending(shards, i)[a].batch == shards[Pending(shards, i)[a].shard]
              && Pending(shards, i)[a].batch != map[]
  {
    if i < |shards| {
      PendingCalls(shards, i + 1);
    }
  }

  /** Every non-empty shard from `i` on is listed by `Pending`. */
  lemma {:induction false} PendingComplete(shards: seq<Shard>, i: nat)
    requires i <= |shards|
    decreases |shards| - i
    ensures forall j :: i <= j < |shards| && shards[j] != map[] ==> Sent(Pending(shards, i), j)
  {
    if i < |shards| {
      PendingComplete(shards, i + 1);
      var rest := Pending(shards, i + 1);
      var p := Pending(shards, i);
      if shards[i] != map[] {
        assert p == [Call(i, shards[i])] + rest;
        forall j | i < j < |shards| && shards[j] != map[]
          ensures Sent(p, j)
        {
          var a :| 0 <= a < |rest| && rest[a].shard == j;
          assert p[a + 1].shard == j;
        }
        assert p[0].shard == i;
      }
    }
  }

  /** `Pending` lists the shards in strictly increasing index order. */
  lemma {:induction false} PendingIncreasing(shards: seq<Shard>, i: nat)
    requires i <= |shards|
    decreases |shards| - i
    ensures Increasing(Pending(shards, i))
  {
    if i < |shards| {
      PendingIncreasing(shards, i + 1);
      PendingCalls(shards, i + 1);
    }
  }

  /** One turn of the loop: an empty shard adds no call and leaves the table
      alone; a non-empty one adds exactly one call carrying its contents;
      `t'` is the table the rest of the loop starts from. */
  lemma FlushStep(u: State, i: nat, t: Table, send: Sender) returns (t': Table)
    requires i < |u.shards|
    ensures t' == if u.shards[i] == map[] then t else send(t, Call(i, u.shards[i]))
    ensures FlushFrom(u, i, t, send).calls
            == (if u.shards[i] == map[] then [] else [Call(i, u.shards[i])])
               + FlushFrom(Drain(u, i), i + 1, t', send).calls
    ensures FlushFrom(u, i, t, send).state == FlushFrom(Drain(u, i), i + 1, t', send).state
    ensures FlushFrom(u, i, t, send).table == FlushFrom(Drain(u, i), i + 1, t', send).table
    ensures Pending(u.shards, i)
            == (if u.shards[i] == map[] then [] else [Call(i, u.shards[i])]) + Pending(u.shards, i + 1)
  {
    if u.shards[i] == map[] {
      t' := t;
    } else {
      t' := send(t, Call(i, u.shards[i]));
    }
  }

  /** The calls a flush issues depend neither on the table nor on what the
      repository does with them: errors never stop the loop. */
  lemma {:induction false} FlushSendsPending(u: State, i: nat, t: Table, send: Sender)
    requires i <= |u.shards|
    decreases |u.shards| - i
    ensures FlushFrom(u, i, t, send).calls == Pending(u.shards, i)
  {
    if i < |u.shards| {
      var d := Drain(u, i);
      PendingReadsFrom(d.shards, u.shards, i + 1);
      var t' := FlushStep(u, i, t, send);
      FlushSendsPending(d, i + 1, t', send);
    }
  }

  /** What a flush from shard `i` does to one bucket: it gains what the
      accepted calls carry for it; a refused call changes nothing. */
  lemma {:induction false} FlushBucket(u: State, i: nat, t: Table, now: Clock, accepts: nat -> bool, key: (int, int))
    requires i <= |u.shards|
    decreases |u.shards| - i
    ensures Get(FlushFrom(u, i, t, Deliver(now, accepts)).table, key)
            == Get(t, key) + Delivered(FlushFrom(u, i, t, Deliver(now, accepts)).calls, now, accepts, key)
    ensures key in FlushFrom(u, i, t, Deliver(now, accepts)).table
            <==> key in t || Written(FlushFrom(u, i, t, Deliver(now, accepts)).calls, now, accepts, key)
  {
    if i < |u.shards| {
      var send := Deliver(now, accepts);
      var d := Drain(u, i);
      var t' := FlushStep(u, i, t, send);
      FlushBucket(d, i + 1, t', now, accepts, key);
      var r := FlushFrom(u, i, t, send);
      var rest := FlushFrom(d, i + 1, t', send);
      if u.shards[i] != map[] {
        assert t' == BatchData(t, u.shards[i], now(i), accepts(i)).table;
        BatchDataAt(t, u.shards[i], now(i), accepts(i), key);
        assert r.calls[0] == Call(i, u.shards[i]);
        assert r.calls[1..] == rest.calls;
      }
    }
  }

  /** `FlushBucket` for every bucket of a whole flush. */
  lemma FlushTable(u: State, t: Table, now: Clock, accepts: nat -> bool)
    ensures forall key: (int, int) ::
              Get(FlushFrom(u, 0, t, Deliver(now, accepts)).table, key)
              == Get(t, key) + Delivered(FlushFrom(u, 0, t, Deliver(now, accepts)).calls, now, accepts, key)
    ensures forall key: (int, int) ::
              key in FlushFrom(u, 0, t, Deliver(now, accepts)).table
              <==> key in t || Written(FlushFrom(u, 0, t, Deliver(now, accepts)).calls, now, accepts, key)
  {
    forall key: (int, int) {
      FlushBucket(u, 0, t, now, accepts, key);
    }
  }

  /** `FlushToDB`: every shard drained in index order; each non-empty one
      sent exactly once with exactly its contents; the table gains what the
      accepted calls carry, and failing calls change nothing else. */
  function FlushToDB(u: State, t: Table, now: Clock, accepts: nat -> bool): (r: Flushed)
    ensures |r.state.shards| == |u.shards|
    ensures forall j :: 0 <= j < |u.shards| ==> r.state.shards[j] == map[]
    ensures forall a :: 0 <= a < |r.calls| ==>
              r.calls[a].shard < |u.shards|
              && r.calls[a].batch == u.shards[r.calls[a].shard] && r.calls[a].batch != map[]
    ensures forall j :: 0 <= j < |u.shards| && u.shards[j] != map[] ==> Sent(r.calls, j)
    ensures Increasing(r.calls)
    ensures forall key: (int, int) :: Get(r.table, key) == Get(t, key) + Delivered(r.calls, now, accepts, key)
    ensures forall key: (int, int) :: key in r.table <==> key in t || Written(r.calls, now, accepts, key)
  {
    FlushSendsPending(u, 0, t, Deliver(now, accepts));
    PendingCalls(u.shards, 0);
    PendingComplete(u.shards, 0);
    PendingIncreasing(u.shards, 0);
    FlushTable(u, t, now, accepts);
    FlushFrom(u, 0, t, Deliver(now, accepts))
  }

  /** The total of the batches the database accepted. */
  ghost function Accepted(calls: seq<Call>, accepts: nat -> bool): int
  {
    if calls == [] then 0
    else (if accepts(calls[0].shard) then Sum(calls[0].batch) else 0) + Accepted(calls[1..], accepts)
  }

  /** A sender that raises the table's total by a call's batch exactly when
      the database accepts that call and the batch is non-empty. */
  ghost predicate AddsAccepted(send: Sender, accepts: nat -> bool)
  {
    forall t0: Table, c: Call ::
      Sum(send(t0, c)) == Sum(t0) + (if accepts(c.shard) && c.batch != map[] then Sum(c.batch) else 0)
  }

  /** Through such a sender, the loop from shard `i` raises the table's total
      by exactly what the accepted calls carry. */
  lemma {:induction false} SendTotal(u: State, i: nat, t: Table, send: Sender, accepts: nat -> bool)
    requires i <= |u.shards|
    requires AddsAccepted(send, accepts)
    decreases |u.shards| - i
    ensures Sum(FlushFrom(u, i, t, send).table) == Sum(t) + Accepted(FlushFrom(u, i, t, send).calls, accepts)
  {
    if i < |u.shards| {
      var t' := FlushStep(u, i, t, send);
      SendTotal(Drain(u, i), i + 1, t', send, accepts);
      if u.shards[i] != map[] {
        AcceptedCons(Call(i, u.shards[i]), FlushFrom(Drain(u, i), i + 1, t', send).calls, accepts);
      }
    }
  }

  /** The table's grand total rises by exactly what the accepted calls carry. */
  lemma FlushTotal(u: State, i: nat, t: Table, now: Clock, accepts: nat -> bool)
    requires i <= |u.shards|
    ensures Sum(FlushFrom(u, i, t, Deliver(now, accepts)).table)
            == Sum(t) + Accepted(FlushFrom(u, i, t, Deliver(now, accepts)).calls, accepts)
  {
    var send := Deliver(now, accepts);
    forall t0: Table, c: Call
      ensures Sum(send(t0, c)) == Sum(t0) + (if accepts(c.shard) && c.batch != map[] then Sum(c.batch) else 0)
    {
      CallTotal(t0, c.batch, c.shard, now, accepts);
    }
    SendTotal(u, i, t, send, accepts);
  }

  /** One delivered call raises the total by its batch when accepted. */
  lemma CallTotal(t: Table, batch: Batch, i: nat, now: Clock, accepts: nat -> bool)
    ensures Sum(Deliver(now, accepts)(t, Call(i, batch)))
            == Sum(t) + (if accepts(i) && batch != map[] then Sum(batch) else 0)
  {
    BatchDataTotal(t, batch, now(i), accepts(i));
    BatchDataReply(t, batch, now(i), accepts(i));
    if batch == map[] {
      assert Sum(batch) == 0;
    }
  }

  /** `Accepted` on a call in front of others. */
  lemma AcceptedCons(c: Call, calls: seq<Call>, accepts: nat -> bool)
    ensures Accepted([c] + calls, accepts)
            == (if accepts(c.shard) then Sum(c.batch) else 0) + Accepted(calls, accepts)
  {
    assert ([c] + calls)[1..] == calls;
  }

  /** After a flush from shard `i` the buffer holds the last shard's snapshot
      (the buffer is refilled for every shard, empty or not), or is untouched
      when no shard is left. */
  lemma {:induction false} FlushBuffer(u: State, i: nat, t: Table, send: Sender)
    requires i <= |u.shards|
    decreases |u.shards| - i
    ensures FlushFrom(u, i, t, send).state.buffer
            == if i < |u.shards| then u.shards[|u.shards| - 1] else u.buffer
  {
    if i < |u.shards| {
      var d := Drain(u, i);
      var t' := FlushStep(u, i, t, send);
      FlushBuffer(d, i + 1, t', send);
    }
  }

  /** The state a flush leaves and the calls it makes depend neither on the
      table, nor on the clock, nor on which calls the database refuses. */
  lemma FlushIgnoresErrors(u: State, t1: Table, now1: Clock, accepts1: nat -> bool,
                                     t2: Table, now2: Clock, accepts2: nat -> bool)
    ensures FlushToDB(u, t1, now1, accepts1).state == FlushToDB(u, t2, now2, accepts2).state
    ensures FlushToDB(u, t1, now1, accepts1).calls == FlushToDB(u, t2, now2, accepts2).calls
  {
    var r1 := FlushToDB(u, t1, now1, accepts1);
    var r2 := FlushToDB(u, t2, now2, accepts2);
    FlushBuffer(u, 0, t1, Deliver(now1, accepts1));
    FlushBuffer(u, 0, t2, Deliver(now2, accepts2));
    FlushSendsPending(u, 0, t1, Deliver(now1, accepts1));
    FlushSendsPending(u, 0, t2, Deliver(now2, accepts2));
    assert r1.state.shards == r2.state.shards;
  }

  /** A flush over shards that are all empty from `i` on makes no call and
      leaves the table alone. */
  lemma {:induction false} FlushNothing(u: State, i: nat, t: Table, send: Sender)
    requires i <= |u.shards|
    requires forall j :: i <= j < |u.shards| ==> u.shards[j] == map[]
    decreases |u.shards| - i
    ensures FlushFrom(u, i, t, send).calls == []
    ensures FlushFrom(u, i, t, send).table == t
  {
    if i < |u.shards| {
      var d := Drain(u, i);
      var t' := FlushStep(u, i, t, send);
      FlushNothing(d, i + 1, t, send);
    }
  }

  /** Flushing twice with no click in between: the second flush makes no call
      and leaves the table as the first one left it. */
  lemma FlushIdle(u: State, t: Table, now: Clock, accepts: nat -> bool, now': Clock, accepts': nat -> bool)
    ensures FlushToDB(FlushToDB(u, t, now, accepts).state, FlushToDB(u, t, now, accepts).table, now', accepts').calls == []
    ensures FlushToDB(FlushToDB(u, t, now, accepts).state, FlushToDB(u, t, now, accepts).table, now', accepts').table
            == FlushToDB(u, t, now, accepts).table
  {
    var first := FlushToDB(u, t, now, accepts);
    FlushNothing(first.state, 0, first.table, Deliver(now', accepts'));
  }

  /** How many clicks for `k` the calls carry in total. */
  function Emitted(calls: seq<Call>, k: int): nat
  {
    if calls == [] then 0 else Count(calls[0].batch, k) + Emitted(calls[1..], k)
  }

  lemma {:induction false} EmittedAppend(a: seq<Call>, b: seq<Call>, k: int)
    ensures Emitted(a + b, k) == Emitted(a, k) + Emitted(b, k)
  {
    if a != [] {
      assert (a + b)[1..] == a[1..] + b;
      EmittedAppend(a[1..], b, k);
    } else {
      assert a + b == b;
    }
  }

  /** With every key in its routed shard, the calls from shard `i` on carry
      exactly the key's live count when its shard is among them, else nothing. */
  lemma {:induction false} PendingEmits(route: Router, shards: seq<Shard>, i: nat, k: int)
    requires InRange(route, |shards|) && Routed(route, shards)
    requires i <= |shards|
    decreases |shards| - i
    ensures Emitted(Pending(shards, i), k)
            == if i <= route(k, |shards|) then Live(route, shards, k) else 0
  {
    if i < |shards| {
      PendingEmits(route, shards, i + 1, k);
      if shards[i] != map[] {
        assert Pending(shards, i)[1..] == Pending(shards, i + 1);
      }
    }
  }

  /** A flush hands over exactly each banner's live count. */
  lemma FlushEmits(u: State, route: Router, t: Table, now: Clock, accepts: nat -> bool, k: int)
    requires InRange(route, |u.shards|) && Routed(route, u.shards)
    ensures Emitted(FlushToDB(u, t, now, accepts).calls, k) == Live(route, u.shards, k)
  {
    FlushSendsPending(u, 0, t, Deliver(now, accepts));
    PendingEmits(route, u.shards, 0, k);
  }

  /** With every key in its routed shard, a key occurs in at most one batch of a flush. */
  lemma FlushAtMostOnce(u: State, route: Router, t: Table, now: Clock, accepts: nat -> bool, k: int, a: nat, b: nat)
    requires InRange(route, |u.shards|) && Routed(route, u.shards)
    requires a < b < |FlushToDB(u, t, now, accepts).calls|
    ensures !(k in FlushToDB(u, t, now, accepts).calls[a].batch && k in FlushToDB(u, t, now, accepts).calls[b].batch)
  {
    FlushSendsPending(u, 0, t, Deliver(now, accepts));
    PendingAtMostOnce(route, u.shards, k, a, b);
  }

  lemma PendingAtMostOnce(route: Router, shards: seq<Shard>, k: int, a: nat, b: nat)
    requires InRange(route, |shards|) && Routed(route, shards)
    requires a < b < |Pending(shards, 0)|
    ensures !(k in Pending(shards, 0)[a].batch && k in Pending(shards, 0)[b].batch)
  {
    var p := Pending(shards, 0);
    PendingCalls(shards, 0);
    PendingIncreasing(shards, 0);
    assert p[a].shard < p[b].shard;
    var i, j := p[a].shard, p[b].shard;
    assert p[a].batch == shards[i] && p[b].batch == shards[j];
    assert k in shards[i] ==> route(k, |shards|) == i;
    assert k in shards[j] ==> route(k, |shards|) == j;
  }

  /** `GetStats` is passed straight through to the repository. */
  function GetStats(t: Table, id: int, from: int, to: int, reachable: bool): (r: Result<seq<Counter>>)
    ensures r == Repository.GetStats(t, id, from, to, reachable)
  {
    Repository.GetStats(t, id, from, to, reachable)
  }
}
