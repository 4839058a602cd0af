// From the agent's sensors to a restarted server: the collection pipeline, the
// report and the backup file composed.

module EndToEnd {
  import opened Wrappers
  import opened Int64
  import opened Models
  import opened AbstractStore
  import opened Pipeline
  import opened PipelineInvariant
  import opened PipelineTheorems
  import Hybrid
  import HybridRuns
  import Wire
  import opened PipelineTicks
  import D = Database
  import T = Refinement

  lemma {:induction false} NoEmptyName(ms: seq<Metrics>)
    requires forall m :: m in ms ==> GoodMessage(m)
    ensures Hits(ms, "") == []
  {
    if ms != [] {
      assert ms[0] in ms && forall m :: m in ms[1..] ==> m in ms;
      NoEmptyName(ms[1..]);
    }
  }

  lemma {:induction false} CollectedNamesAreNotEmpty(s: State)
    requires Reachable(s)
    ensures "" !in s.mem.store && !s.mem.locked
  {
    ReachableInv(s);
    BatchMeaning(EMPTY, s.applied);
    assert forall m :: m in s.applied ==> m in Entered(s);
    NoEmptyName(s.applied);
    assert Lookup(s.mem.store, "") == KeyMeaning(None, Hits(s.applied, ""));
  }

  lemma {:induction false} ReportArrives(s: State, order: seq<string>, viaJson: bool, h: Hybrid.HState, io: Hybrid.Io,
                                         now: int, h': Hybrid.HState, out: Outcome)
    requires Reachable(s) && s.mem.store != map[] && AllSafe(s.mem.store)
    requires Wire.Enumerates(order, s.mem.store)
    requires HybridRuns.Running(h) && Hybrid.Healthy(io)
    requires h.mem == Wire.Deliver(s.mem.store, order, viaJson, EMPTY).st
    requires HybridRuns.RestartRel(h, io, now, h', out)
    ensures out.Done? && h'.mem == s.mem
  {
    CollectedNamesAreNotEmpty(s);
    Wire.ReportRebuildsStore(s.mem.store, order);
    Wire.WirePathsAgree(s.mem.store, order, order, EMPTY);
    HybridRuns.RestartPreservesIff(h, io, now, h', out);
  }

  /** The first report the agent delivers, taken at any moment of a run: whatever
      the interleaving of the agent's goroutines, the map order of the report, the
      wire format, the map order of the backup and the moment of the restart, a
      new server ends with the store that applying a prefix of the first message
      stream and then a prefix of the second gives, and a restart keeps it. */
  lemma {:induction false} FirstReportSurvivesRestart(s: State, order: seq<string>, viaJson: bool, h: Hybrid.HState,
                                                      io: Hybrid.Io, now: int, h': Hybrid.HState, out: Outcome)
    requires Reachable(s) && s.mem.store != map[] && AllSafe(s.mem.store) && Wire.Enumerates(order, s.mem.store)
    requires HybridRuns.Running(h) && Hybrid.Healthy(io)
    requires h.mem == Wire.Deliver(s.mem.store, order, viaJson, EMPTY).st
    requires HybridRuns.RestartRel(h, io, now, h', out)
    ensures |s.src| == 2
    ensures Own(s.applied, 0) <= s.src[0].stream && Own(s.applied, 1) <= s.src[1].stream
    ensures out.Done? && h'.mem == BatchSpec(EMPTY, Absorbed(s)).st
  {
    ReportArrives(s, order, viaJson, h, io, now, h', out);
    SnapshotIsSequential(s);
  }

  /** In terms of the ticks: the restarted server has of each source the readings of
      some tick, and those of the next under the first names. */
  lemma {:induction false} FirstReportHoldsTicks(ls: seq<Label>, order: seq<string>, viaJson: bool, h: Hybrid.HState,
                                                 io: Hybrid.Io, now: int, h': Hybrid.HState, out: Outcome, i: nat)
    returns (q: nat, r: nat)
    requires Run(INIT, ls).Some? && i < 2
    requires Run(INIT, ls).value.mem.store != map[] && AllSafe(Run(INIT, ls).value.mem.store)
    requires Wire.Enumerates(order, Run(INIT, ls).value.mem.store)
    requires HybridRuns.Running(h) && Hybrid.Healthy(io)
    requires h.mem == Wire.Deliver(Run(INIT, ls).value.mem.store, order, viaJson, EMPTY).st
    requires HybridRuns.RestartRel(h, io, now, h', out)
    ensures RightSizes(i, TicksOf(ls, i)) && HoldsTicks(h'.mem.store, i, TicksOf(ls, i), q, r)
  {
    var s := Run(INIT, ls).value;
    assert Reachable(s);
    ReportArrives(s, order, viaJson, h, io, now, h', out);
    StreamIsTicks(ls, i);
    q, r := SnapshotOfSource(ls, i);
  }

  /** One protobuf message with a NaN or infinite gauge, for a name that is new
      or a gauge: the server stores it and frees the mutex, and then a backup fails
      on any file system and a JSON report of the store fails. */
  lemma {:induction false} NonFiniteGaugeStopsBackups(st: MemState, k: string, f: Float64, h: Hybrid.HState,
                                                      io: Hybrid.Io, now: int, h': Hybrid.HState, out: Outcome,
                                                      order: seq<string>)
    requires !st.locked && !f.Finite? && (k in st.store ==> st.store[k].Gauge?)
    requires h.mem == Wire.GrpcSpec(st, [Wire.PbMetric(Some(k), Wire.PB_GAUGE, Some(f), None)]).st
    requires Hybrid.BackupRel(h, io, now, h', out)
    requires Wire.Enumerates(order, h.mem.store)
    ensures h.mem == MemState(st.store[k := Gauge(f)], false)
    ensures !out.Done? && Wire.JsonReport(h.mem.store, order).Failure?
  {
    var msg := Wire.PbMetric(Some(k), Wire.PB_GAUGE, Some(f), None);
    var m := Metrics(k, GAUGE, None, None, Flt(f));
    assert Wire.TranslateSpec([msg]) == Success([m]) by {
      assert Wire.TranslateSpec([msg]) == Wire.Prepend([m], Wire.TranslateSpec([]));
      assert [m] + [] == [m];
    }
    assert BatchSpec(st, [m]) == BatchSpec(ElementSpec(st, m).st, []);
    assert h.mem.store[k] == Gauge(f) && !AllSafe(h.mem.store);
    if out.Done? {
      HybridRuns.ImageIsSafe(h'.file, h.mem.store);
    }
    Wire.JsonCarries(h.mem.store, order);
    assert k in order;
  }

  // ---------- The agent's reports and the table ----------

  lemma {:induction false} EarlyNamesFit(n: nat)
    requires n < 14
    ensures D.Storable(GAUGE_NAMES[n])
  {
  }

  lemma {:induction false} LateNamesFit(n: nat)
    requires 14 <= n < 27
    ensures D.Storable(GAUGE_NAMES[n])
  {
  }

  /** The name column holds all of the agent's names as they are. */
  lemma {:induction false} AgentNamesFit(i: nat, n: nat)
    requires i < 2 && n < Width(i)
    ensures D.Storable(NameAt(i, n))
  {
    if i == 0 && n < 14 {
      EarlyNamesFit(n);
    } else if i == 0 && n < 27 {
      LateNamesFit(n);
    }
  }

  /** A batch the server can get from an agent: at some moment of some run, the
      metrics of the agent's store in some order. */
  ghost predicate IsAgentReport(op: T.Op) {
    exists ls, order :: IsReportOf(op, ls, order)
  }

  ghost predicate IsReportOf(op: T.Op, ls: seq<Label>, order: seq<string>) {
    && op.Batch? && Run(INIT, ls).Some?
    && Wire.Enumerates(order, Run(INIT, ls).value.mem.store)
    && Wire.Carries(op.xs, Run(INIT, ls).value.mem.store, order)
  }

  lemma {:induction false} StoredNameFits(ls: seq<Label>, k: string)
    requires Run(INIT, ls).Some? && k in Run(INIT, ls).value.mem.store
    ensures D.Storable(k) && (Run(INIT, ls).value.mem.store[k].Counter? <==> k == POLL_COUNT)
  {
    ReachableInv(Run(INIT, ls).value);
    SnapshotNames(ls, k);
    var src: nat, n: nat :| src < 2 && n < Width(src) && k == NameAt(src, n);
    AgentNamesFit(src, n);
  }

  lemma {:induction false} CarriedIsSteady(xs: seq<Metrics>, s: Store, order: seq<string>, isCounter: string -> bool,
                                           i: nat)
    requires Wire.Carries(xs, s, order) && i < |xs|
    requires D.Storable(order[i]) && (s[order[i]].Counter? <==> isCounter(order[i]))
    ensures T.SteadyValue(xs[i].id, xs[i].mtype, xs[i].actual, isCounter)
  {
  }

  lemma {:induction false} ReportIsSteady(op: T.Op, isCounter: string -> bool)
    requires IsAgentReport(op) && forall k :: isCounter(k) <==> k == POLL_COUNT
    ensures T.SteadyOp(op, isCounter)
  {
    var ls, order :| IsReportOf(op, ls, order);
    forall m | m in op.xs
      ensures T.SteadyValue(m.id, m.mtype, m.actual, isCounter)
    {
      var i :| 0 <= i < |op.xs| && op.xs[i] == m;
      StoredNameFits(ls, order[i]);
      CarriedIsSteady(op.xs, Run(INIT, ls).value.mem.store, order, isCounter, i);
    }
  }

  /** The table takes the reports of any number of agents: as long as their poll
      counts add up to less than 2^63, it represents the same map as memory after
      every report. */
  lemma {:induction false} TableTakesAgentReports(t: D.Table, s: Store, ops: seq<T.Op>, isCounter: string -> bool,
                                                  used: nat)
    requires T.Represents(t, s) && T.SteadyStore(s, isCounter, used) && forall k :: isCounter(k) <==> k == POLL_COUNT
    requires forall op :: op in ops ==> IsAgentReport(op)
    requires InRange(used + T.TotalSize(ops))
    ensures T.InLockStep(t, s, ops)
  {
    forall op | op in ops
      ensures T.SteadyOp(op, isCounter)
    {
      ReportIsSteady(op, isCounter);
    }
    T.SteadyTrafficRefines(t, s, ops, isCounter, used);
  }
}
