// The worker path: a snapshot of the agent's store, queued and handled by the
// workers one metric at a time, reaches the server as concurrent requests.

module WorkerPath {
  import opened Wrappers
  import opened Int64
  import opened Models
  import opened AbstractStore
  import P = SendWorkers
  import R = Requests
  import opened Wire

  // ---------- What arrives ----------

  /** The message SendMetrics queues for one metric. */
  function QueueItem(k: string, r: Reading): Metrics {
    Metrics(k, r.Kind(), None, None, r.GetValue())
  }

  function QueueItems(s: Store, order: seq<string>): seq<Metrics>
    requires forall i :: 0 <= i < |order| ==> order[i] in s
  {
    seq(|order|, i requires 0 <= i < |order| => QueueItem(order[i], s[order[i]]))
  }

  /** The request UpdateJSON gets for a message, if encoding, decoding and the
      handler's checks let it through. */
  function Arrives(m: Metrics): Option<R.Request> {
    match MarshalJSON(m)
    case Failure(_) => None
    case Success(j) =>
      match UnmarshalJSON(j)
      case Failure(_) => None
      case Success(d) =>
        if (d.mtype != GAUGE && d.mtype != COUNTER) || d.id == "" then None
        else Some(R.Request(d.id, d.mtype, d.actual))
  }

  function SnapshotRequest(s: Store, k: string): R.Request
    requires k in s
  {
    R.Request(k, s[k].Kind(), s[k].GetValue())
  }

  lemma {:induction false} ItemArrives(s: Store, k: string)
    requires k in s
    ensures Arrives(QueueItem(k, s[k])) == if k != "" && s[k].JsonSafe() then Some(SnapshotRequest(s, k)) else None
  {
    JsonRoundTrip(QueueItem(k, s[k]));
    assert Fresh(s[k].GetValue()) == s[k];
  }

  /** The requests carry each metric of `s` once. */
  ghost predicate IsSnapshot(reqs: seq<R.Request>, s: Store) {
    && (forall i :: 0 <= i < |reqs| ==> reqs[i].id in s && reqs[i] == SnapshotRequest(s, reqs[i].id))
    && (forall k :: k in s ==> exists i :: 0 <= i < |reqs| && reqs[i].id == k)
    && (forall i, j :: 0 <= i < j < |reqs| ==> reqs[i].id != reqs[j].id)
  }

  // ---------- The server side ----------

  lemma {:induction false} DistinctCallers(reqs: seq<R.Request>, k: string)
    requires forall i, j :: 0 <= i < j < |reqs| ==> reqs[i].id != reqs[j].id
    ensures R.Callers(reqs, k) <= 1
    ensures (forall i :: 0 <= i < |reqs| ==> reqs[i].id != k) ==> R.Callers(reqs, k) == 0 && R.Total(reqs, k) == 0
    ensures forall i :: 0 <= i < |reqs| && reqs[i].id == k ==>
              R.Callers(reqs, k) == 1 && R.Total(reqs, k) == R.Delta(reqs[i], k)
  {
    if reqs != [] {
      var tail := reqs[1..];
      assert forall i :: 0 <= i < |tail| ==> tail[i] == reqs[i + 1];
      DistinctCallers(tail, k);
    }
  }

  lemma {:induction false} LastIsCallers(reqs: seq<R.Request>, log: seq<R.Write>, k: string)
    requires R.InRangeLog(reqs, log)
    ensures R.LastWritten(reqs, log, k).Some? ==>
              exists i :: 0 <= i < |reqs| && reqs[i].id == k && R.LastWritten(reqs, log, k) == Some(reqs[i].v)
  {
    if log != [] {
      var w, before := log[|log| - 1], log[..|log| - 1];
      assert R.InRangeLog(reqs, before) && w in log;
      LastIsCallers(reqs, before, k);
    }
  }

  function KindOf(s: Store, s': Store): string -> bool {
    k => if k in s then s[k].Counter? else k in s' && s'[k].Counter?
  }

  lemma {:induction false} SnapshotIsTyped(s: Store, s0: Store, reqs: seq<R.Request>)
    requires IsSnapshot(reqs, s) && SameKinds(s0, s)
    ensures R.KindConsistent(reqs, s0, KindOf(s, s0))
  {
    forall q | q in reqs
      ensures NewMetric(q.mtype, q.v).Some? && (KindOf(s, s0)(q.id) <==> q.v.Int?)
    {
      var i :| 0 <= i < |reqs| && reqs[i] == q;
    }
  }

  /** One name when all requests have ended. */
  lemma {:induction false} SnapshotKey(s: Store, s0: Store, reqs: seq<R.Request>, schedule: seq<nat>, k: string)
    requires IsSnapshot(reqs, s) && SameKinds(s0, s) && R.Completes(reqs, s0, schedule)
    ensures R.EndReading(reqs, s0, schedule, k) == MergedReading(Lookup(s0, k), Lookup(s, k))
  {
    SnapshotIsTyped(s, s0, reqs);
    R.CompleteFacts(reqs, s0, schedule, KindOf(s, s0), k);
    DistinctCallers(reqs, k);
    var e := R.Run(reqs, R.Init(reqs, s0), schedule).value;
    LastIsCallers(reqs, e.log, k);
    if k in s {
      var i :| 0 <= i < |reqs| && reqs[i].id == k;
      SnapshotValue(s, reqs, i);
    }
    KeyIsMerged(Lookup(s0, k), Lookup(s, k), Lookup(e.mem.store, k), R.Kept(reqs, e.log, k, Base(Lookup(s0, k))),
                R.Total(reqs, k), R.LastWritten(reqs, e.log, k));
  }

  lemma {:induction false} SnapshotValue(s: Store, reqs: seq<R.Request>, i: nat)
    requires IsSnapshot(reqs, s) && i < |reqs|
    ensures reqs[i].id in s && reqs[i].v == s[reqs[i].id].GetValue()
    ensures R.Delta(reqs[i], reqs[i].id) == if s[reqs[i].id].Counter? then s[reqs[i].id].c else 0
  {
  }

  lemma {:induction false} KeyIsMerged(before: Option<Reading>, report: Option<Reading>, now: Option<Reading>,
                                       kept: int, total: int, last: Option<Any>)
    requires before.Some? && report.Some? ==> (before.value.Counter? <==> report.value.Counter?)
    requires now.None? <==> before.None? && last.None?
    requires last.None? <==> report.None?
    requires report.Some? ==> last == Some(report.value.GetValue())
    requires now.Some? ==> if report.Some? then now.value.Counter? <==> report.value.Counter?
                           else now.value.Counter? <==> before.value.Counter?
    requires total == if report.Some? && report.value.Counter? then report.value.c else 0
    requires kept == Base(before) + total
    requires now.Some? && now.value.Counter? ==> now.value.c == Wrap(kept)
    requires now.Some? && now.value.Gauge? ==> if last.Some? then now.value.GetValue() == last.value else now == before
    ensures now == MergedReading(before, report)
  {
    if now.Some? && now.value.Counter? {
      CounterIsMerged(before, report, now.value.c, kept);
    }
  }

  lemma {:induction false} CounterIsMerged(before: Option<Reading>, report: Option<Reading>, c: int64, kept: int)
    requires before.Some? || report.Some?
    requires (before.Some? ==> before.value.Counter?) && (report.Some? ==> report.value.Counter?)
    requires kept == Base(before) + Base(report) && c == Wrap(kept)
    ensures Some(Counter(c)) == MergedReading(before, report)
  {
    if before.None? {
      SmallWrap(report.value.c);
    } else if report.None? {
      SmallWrap(before.value.c);
    }
  }

  lemma {:induction false} SmallWrap(x: int64)
    ensures Wrap(x) == x
  {
  }

  /** Concurrent requests that carry each metric of a snapshot once, in whatever
      interleaving, do to the server what one batch with the snapshot does. */
  lemma {:induction false} SnapshotMerges(s: Store, s0: Store, reqs: seq<R.Request>, schedule: seq<nat>)
    requires IsSnapshot(reqs, s) && SameKinds(s0, s) && R.Completes(reqs, s0, schedule)
    ensures Merged(s0, s, R.Run(reqs, R.Init(reqs, s0), schedule).value.mem.store)
  {
    forall k
      ensures R.EndReading(reqs, s0, schedule, k) == MergedReading(Lookup(s0, k), Lookup(s, k))
    {
      SnapshotKey(s, s0, reqs, schedule, k);
    }
  }

  // ---------- Through the pool ----------

  lemma {:induction false} DistinctOnce<T>(xs: seq<T>, x: T)
    requires forall i, j :: 0 <= i < j < |xs| ==> xs[i] != xs[j]
    ensures multiset(xs)[x] <= 1
  {
    if xs != [] {
      DistinctOnce(xs[1..], x);
      assert xs == [xs[0]] + xs[1..];
      assert x in xs[1..] <==> multiset(xs[1..])[x] > 0;
    }
  }

  lemma {:induction false} TwiceCounts<T>(ys: seq<T>, i: nat, j: nat)
    requires i < j < |ys| && ys[i] == ys[j]
    ensures multiset(ys)[ys[i]] >= 2
  {
    assert ys == ys[..j] + [ys[j]] + ys[j + 1..] && ys[..j][i] == ys[i];
    assert ys[i] in ys[..j];
  }

  /** Messages handled in any order, as requests. */
  function AllArrive(ms: seq<Metrics>): seq<R.Request>
    requires forall i :: 0 <= i < |ms| ==> Arrives(ms[i]).Some?
  {
    seq(|ms|, i requires 0 <= i < |ms| => Arrives(ms[i]).value)
  }

  lemma {:induction false} HandledItem(s: Store, order: seq<string>, handled: seq<Metrics>, i: nat)
    requires Enumerates(order, s) && AllSafe(s) && "" !in s
    requires multiset(handled) == multiset(QueueItems(s, order)) && i < |handled|
    ensures handled[i].id in s && handled[i] == QueueItem(handled[i].id, s[handled[i].id])
    ensures Arrives(handled[i]) == Some(SnapshotRequest(s, handled[i].id))
  {
    assert handled[i] in multiset(handled);
    assert handled[i] in QueueItems(s, order);
    ItemArrives(s, handled[i].id);
  }

  lemma {:induction false} HandledIsSnapshot(s: Store, order: seq<string>, handled: seq<Metrics>)
    requires Enumerates(order, s) && AllSafe(s) && "" !in s
    requires multiset(handled) == multiset(QueueItems(s, order))
    ensures forall i :: 0 <= i < |handled| ==> Arrives(handled[i]).Some?
    ensures IsSnapshot(AllArrive(handled), s)
  {
    var items := QueueItems(s, order);
    forall i | 0 <= i < |handled|
      ensures handled[i].id in s && handled[i] == QueueItem(handled[i].id, s[handled[i].id])
      ensures Arrives(handled[i]) == Some(SnapshotRequest(s, handled[i].id))
    {
      HandledItem(s, order, handled, i);
    }
    var reqs := AllArrive(handled);
    forall k | k in s
      ensures exists i :: 0 <= i < |reqs| && reqs[i].id == k
    {
      EachIsHandled(s, order, handled, k);
      var i :| 0 <= i < |handled| && handled[i].id == k;
      assert reqs[i].id == k;
    }
    forall i, j | 0 <= i < j < |reqs|
      ensures reqs[i].id != reqs[j].id
    {
      if handled[i].id == handled[j].id {
        TwiceCounts(handled, i, j);
        DistinctOnce(items, handled[i]);
      }
    }
  }

  lemma {:induction false} EachIsHandled(s: Store, order: seq<string>, handled: seq<Metrics>, k: string)
    requires Enumerates(order, s) && multiset(handled) == multiset(QueueItems(s, order)) && k in s
    ensures exists i :: 0 <= i < |handled| && handled[i].id == k
  {
    var items := QueueItems(s, order);
    var p :| 0 <= p < |order| && order[p] == k;
    assert items[p] == QueueItem(k, s[k]) && items[p] in multiset(items);
    assert items[p] in handled;
  }

  /** A run of the pool whose ticks bring the snapshot, which is cancelled when the
      producer is back at its select, and which has drained; `handled` lists what
      its workers have handled in the order of the server's choice. */
  ghost predicate Drained(s: Store, order: seq<string>, rateLimit: nat, early: seq<P.Label>, late: seq<P.Label>,
                          handled: seq<Metrics>)
    requires forall i :: 0 <= i < |order| ==> order[i] in s
  {
    var before, after := P.Run(P.Init(rateLimit), early), P.Run(P.Init(rateLimit), early + [P.Cancel] + late);
    && P.TickItems(early) == QueueItems(s, order)
    && before.Some? && before.value.prod.Selecting?
    && after.Some? && P.Final(after.value) && multiset(handled) == after.value.finished
  }

  /** From snapshot to server: when the pool has drained, the requests its workers
      have made, in whatever order they took the messages and however the server
      interleaves them, leave the server as one batch with the snapshot would, if
      every gauge is finite, no name is empty and the kinds agree. */
  lemma {:induction false} WorkersDeliverSnapshot(s: Store, order: seq<string>, rateLimit: nat, early: seq<P.Label>,
                                                  late: seq<P.Label>, handled: seq<Metrics>, s0: Store,
                                                  schedule: seq<nat>)
    requires Enumerates(order, s) && AllSafe(s) && "" !in s && SameKinds(s0, s)
    requires Drained(s, order, rateLimit, early, late, handled)
    requires forall i :: 0 <= i < |handled| ==> Arrives(handled[i]).Some?
    requires R.Completes(AllArrive(handled), s0, schedule)
    ensures Merged(s0, s, R.Run(AllArrive(handled), R.Init(AllArrive(handled), s0), schedule).value.mem.store)
  {
    PoolHandlesSnapshot(s, order, rateLimit, early, late, handled);
    SnapshotMerges(s, s0, AllArrive(handled), schedule);
  }

  /** The hypothesis that the messages arrive is met: the requests carry each
      metric of the snapshot once. */
  lemma {:induction false} PoolHandlesSnapshot(s: Store, order: seq<string>, rateLimit: nat, early: seq<P.Label>,
                                               late: seq<P.Label>, handled: seq<Metrics>)
    requires Enumerates(order, s) && AllSafe(s) && "" !in s
    requires Drained(s, order, rateLimit, early, late, handled)
    ensures forall i :: 0 <= i < |handled| ==> Arrives(handled[i]).Some?
    ensures IsSnapshot(AllArrive(handled), s)
  {
    var all := early + [P.Cancel] + late;
    P.CancelAtSelect(rateLimit, early, late);
    P.InitInv(rateLimit);
    P.RunKeepsInv(P.Init(rateLimit), all);
    P.FinalHasHandledAll(P.Run(P.Init(rateLimit), all).value);
    HandledIsSnapshot(s, order, handled);
  }

  /** And there is such a run for every store, if there is a worker. */
  lemma {:induction false} SnapshotsDrain(s: Store, order: seq<string>, rateLimit: nat)
    returns (early: seq<P.Label>, late: seq<P.Label>, handled: seq<Metrics>)
    requires Enumerates(order, s) && rateLimit > 0
    ensures Drained(s, order, rateLimit, early, late, handled)
  {
    early, late := P.EverySnapshotIsHandled(rateLimit, QueueItems(s, order));
    var all := early + [P.Cancel] + late;
    P.CancelAtSelect(rateLimit, early, late);
    P.InitInv(rateLimit);
    P.RunKeepsInv(P.Init(rateLimit), all);
    P.FinalHasHandledAll(P.Run(P.Init(rateLimit), all).value);
    handled := QueueItems(s, order);
  }
}
