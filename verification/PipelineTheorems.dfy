// Properties of every run of the collection pipeline: safety, conservation of
// PollCount, drain, termination and confluence.

module PipelineTheorems {
  import opened Wrappers
  import opened Int64
  import opened Models
  import opened AbstractStore
  import opened Pipeline
  import opened PipelineInvariant

  ghost predicate Reachable(s: State) {
    exists ls :: Run(INIT, ls) == Some(s)
  }

  /** A run has ended: the consumer has left its loop. */
  ghost predicate Complete(s: State) {
    Reachable(s) && |s.src| == 2 && s.cons.Stopped?
  }

  lemma {:induction false} ReachableInv(s: State)
    requires Reachable(s)
    ensures Inv(s) && |s.src| == 2
  {
    var ls :| Run(INIT, ls) == Some(s);
    InitInv();
    RunKeepsInv(INIT, ls);
  }

  /** No goroutine ever panics: nobody sends on or closes a closed channel, the
      WaitGroup never goes negative, and the consumer meets no store error and no
      kind mismatch. The update channel closes only after cancellation and after
      both forwarders have returned, each on its own closed and empty channel. */
  lemma {:induction false} NeverCrashes(s: State)
    requires Reachable(s)
    ensures !s.crashed && !s.mem.locked
    ensures s.upd.closed ==>
              && s.done
              && forall i :: 0 <= i < |s.src| ==>
                   s.src[i].fwd.Returned? && s.src[i].ch == Chan([], true) && s.src[i].pending == []
  {
    ReachableInv(s);
  }

  // ---------- What a tick stores ----------

  function Tag(name: string): (int, char, char)
    requires name != ""
  {
    (|name|, name[0], name[|name| - 1])
  }

  /** The names of the first source are told apart by length, first and last
      character. */
  lemma {:induction false} GaugeNamesDiffer(a: nat, b: nat)
    requires a < b < 27
    ensures GAUGE_NAMES[a] != GAUGE_NAMES[b]
  {
    assert GAUGE_NAMES[a] != "" && GAUGE_NAMES[b] != "";
    assert Tag(GAUGE_NAMES[a]) != Tag(GAUGE_NAMES[b]);
  }

  lemma {:induction false} RandomValueDiffers(a: nat)
    requires a < 27
    ensures GAUGE_NAMES[a] != RANDOM_VALUE
  {
    assert GAUGE_NAMES[a][0] != 'R';
  }

  /** Nothing is lost within a tick: its 29 names are distinct, and a new store
      that receives the tick holds every reading under its own name and a
      PollCount of 1. */
  lemma {:induction false} MemTickIsStored(readings: seq<Float64>)
    requires |readings| == 28
    ensures var r := BatchSpec(EMPTY, TickMessages(0, readings));
            && r.out.Done?
            && (forall n :: 0 <= n < 27 ==> Lookup(r.st.store, GAUGE_NAMES[n]) == Some(Gauge(readings[n])))
            && Lookup(r.st.store, RANDOM_VALUE) == Some(Gauge(readings[27]))
            && Lookup(r.st.store, POLL_COUNT) == Some(Counter(1))
  {
    var ms := TickMessages(0, readings);
    assert ms[27] == POLL_MESSAGE && ms[28] == GaugeMessage(RANDOM_VALUE, readings[27]);
    assert forall n :: 0 <= n < 27 ==> ms[n] == GaugeMessage(GAUGE_NAMES[n], readings[n]);
    forall p, q | 0 <= p < q < 29
      ensures ms[p].id != ms[q].id
    {
      if p < 27 {
        GaugeNamesAreDistinctFromTheRest(p);
        RandomValueDiffers(p);
        if q < 27 {
          GaugeNamesDiffer(p, q);
        }
      }
    }
    DistinctBatchStoresAll(ms);
    forall n | 0 <= n < 27
      ensures Lookup(BatchSpec(EMPTY, ms).st.store, GAUGE_NAMES[n]) == Some(Gauge(readings[n]))
    {
      assert ms[n].id == GAUGE_NAMES[n];
    }
  }

  lemma {:induction false} ExtraTickIsStored(readings: seq<Float64>)
    requires |readings| == 3
    ensures var r := BatchSpec(EMPTY, TickMessages(1, readings));
            && r.out.Done?
            && Lookup(r.st.store, "TotalMemory") == Some(Gauge(readings[0]))
            && Lookup(r.st.store, "FreeMemory") == Some(Gauge(readings[1]))
            && Lookup(r.st.store, "CPUutilization1") == Some(Gauge(readings[2]))
  {
    var ms := TickMessages(1, readings);
    DistinctBatchStoresAll(ms);
    assert ms[0].id == "TotalMemory" && ms[1].id == "FreeMemory" && ms[2].id == "CPUutilization1";
  }

  // ---------- PollCount ----------

  function Polls(ms: seq<Metrics>): nat {
    |Hits(ms, POLL_COUNT)|
  }

  /** Sent by a collector and not yet applied. */
  function InFlight(s: State): seq<Metrics>
    requires |s.src| == 2
  {
    InHand(s.cons) + s.upd.buf + Carried(s.src[0].fwd) + s.src[0].ch.buf + Carried(s.src[1].fwd) + s.src[1].ch.buf
  }

  /** Sent so far by source `i`. */
  function Sent(x: Source): seq<Metrics>
    requires |x.pending| <= |x.stream|
  {
    x.stream[..|x.stream| - |x.pending|]
  }

  lemma {:induction false} PollsAppend(xs: seq<Metrics>, ys: seq<Metrics>)
    ensures Polls(xs + ys) == Polls(xs) + Polls(ys)
  {
    HitsAppend(xs, ys, POLL_COUNT);
  }

  lemma {:induction false} OwnAppend(xs: seq<Metrics>, ys: seq<Metrics>, i: nat)
    ensures Own(xs + ys, i) == Own(xs, i) + Own(ys, i)
    decreases |ys|
  {
    if ys == [] {
      assert xs + ys == xs;
    } else {
      var n := |ys| - 1;
      assert xs + ys == (xs + ys[..n]) + [ys[n]] && ys == ys[..n] + [ys[n]];
      OwnSnoc(xs + ys[..n], ys[n], i);
      OwnSnoc(ys[..n], ys[n], i);
      OwnAppend(xs, ys[..n], i);
    }
  }

  /** A name's messages are all among those of the name's owner. */
  lemma {:induction false} HitsOfOwn(ms: seq<Metrics>, i: nat, k: string)
    ensures Hits(Own(ms, i), k) == if (if IsExtra(k) then 1 else 0) == i then Hits(ms, k) else []
    decreases |ms|
  {
    if ms != [] {
      var n := |ms| - 1;
      assert ms == ms[..n] + [ms[n]];
      OwnSnoc(ms[..n], ms[n], i);
      HitsOfOwn(ms[..n], i, k);
      HitsAppend(ms[..n], [ms[n]], k);
      HitsAppend(Own(ms[..n], i), if Owner(ms[n]) == i then [ms[n]] else [], k);
    }
  }

  lemma {:induction false} OwnIsShorter(ms: seq<Metrics>, i: nat)
    ensures |Own(ms, i)| <= |ms|
    decreases |ms|
  {
    if ms != [] {
      OwnIsShorter(ms[..|ms| - 1], i);
    }
  }

  /** How the number of places p with p % 29 == 27 below b grows. */
  lemma {:induction false} PlacesStep(b: nat)
    ensures (b + 2) / 29 - (b + 1) / 29 == if b % 29 == 27 then 1 else 0
  {
    var q, r := b / 29, b % 29;
    assert b == 29 * q + r;
  }

  /** In any stretch of the first source's stream, PollCount occurs once per 29
      positions. */
  lemma {:induction false} PollsInWindow(ms: seq<Metrics>, a: nat, b: nat)
    requires GoodStream(0, ms) && a <= b <= |ms|
    ensures Polls(ms[a..b]) == (b + 1) / 29 - (a + 1) / 29
    decreases b
  {
    if a == b {
      assert ms[a..b] == [];
    } else {
      var last := ms[b - 1];
      PollsInWindow(ms, a, b - 1);
      PlacesStep(b - 1);
      assert ms[a..b] == ms[a..b - 1] + [last];
      PollsAppend(ms[a..b - 1], [last]);
      assert Hits([last], POLL_COUNT) == if last.id == POLL_COUNT then [last.actual] else [];
    }
  }

  /** Only PollCount messages carry numbers to sum, each of them 1. */
  lemma {:induction false} PollsSumToCount(ms: seq<Metrics>)
    requires forall m :: m in ms ==> GoodMessage(m)
    ensures Sum(Hits(ms, POLL_COUNT)) == Polls(ms)
    ensures AllInt(Hits(ms, POLL_COUNT))
  {
    if ms != [] {
      assert ms[0] in ms && forall m :: m in ms[1..] ==> m in ms;
      PollsSumToCount(ms[1..]);
      var h := if ms[0].id == POLL_COUNT then [ms[0].actual] else [];
      SumAppend(h, Hits(ms[1..], POLL_COUNT));
      assert h == [] || h == [Int(1)];
    }
  }

  /** What a source has sent is what it has had applied, then what is in flight
      of it: at most a full update channel, a full source channel and one message
      in each of two hands. */
  lemma {:induction false} SentSplits(x: Source, i: nat, applied: seq<Metrics>, moving: seq<Metrics>)
    requires SourceInv(x, i, Own(applied + moving, i)) && |moving| <= CAPACITY + 1
    ensures |x.pending| <= |x.stream|
    ensures Sent(x) == Own(applied, i) + (Own(moving, i) + Carried(x.fwd) + x.ch.buf)
    ensures |Own(moving, i) + Carried(x.fwd) + x.ch.buf| <= 2 * CAPACITY + 2
  {
    OwnAppend(applied, moving, i);
    OwnIsShorter(moving, i);
    assert x.stream == (Own(applied, i) + (Own(moving, i) + Carried(x.fwd) + x.ch.buf)) + x.pending;
  }

  /** The PollCount messages in flight are those of the first source. */
  lemma {:induction false} PollsInFlight(moving: seq<Metrics>, x: Source, y: Source)
    requires Polls(Carried(y.fwd)) == 0 && Polls(y.ch.buf) == 0
    ensures Polls(moving + Carried(x.fwd) + x.ch.buf + Carried(y.fwd) + y.ch.buf)
         == Polls(Own(moving, 0) + Carried(x.fwd) + x.ch.buf)
  {
    HitsOfOwn(moving, 0, POLL_COUNT);
    PollsAppend(Own(moving, 0) + Carried(x.fwd), x.ch.buf);
    PollsAppend(Own(moving, 0), Carried(x.fwd));
    PollsAppend(moving + Carried(x.fwd) + x.ch.buf + Carried(y.fwd), y.ch.buf);
    PollsAppend(moving + Carried(x.fwd) + x.ch.buf, Carried(y.fwd));
    PollsAppend(moving + Carried(x.fwd), x.ch.buf);
    PollsAppend(moving, Carried(x.fwd));
  }

  /** A stretch of at most 42 messages of the first stream. */
  lemma {:induction false} AtMostTwoPolls(ms: seq<Metrics>, before: seq<Metrics>, tail: seq<Metrics>)
    requires GoodStream(0, ms) && before + tail <= ms
    requires |tail| <= 2 * CAPACITY + 2
    ensures Polls(tail) <= 2
  {
    assert ms[|before|..|before| + |tail|] == tail;
    PollsInWindow(ms, |before|, |before| + |tail|);
  }

  lemma {:induction false} PollsOfFirstSource(x: Source, applied: seq<Metrics>, moving: seq<Metrics>)
    requires SourceInv(x, 0, Own(applied + moving, 0)) && |moving| <= CAPACITY + 1
    ensures |x.pending| <= |x.stream|
    ensures Polls(Sent(x)) == Polls(applied) + Polls(Own(moving, 0) + Carried(x.fwd) + x.ch.buf)
    ensures Polls(Own(moving, 0) + Carried(x.fwd) + x.ch.buf) <= 2
  {
    var tail := Own(moving, 0) + Carried(x.fwd) + x.ch.buf;
    SentSplits(x, 0, applied, moving);
    AtMostTwoPolls(x.stream, Own(applied, 0), tail);
    PollsAppend(Own(applied, 0), tail);
    HitsOfOwn(applied, 0, POLL_COUNT);
  }

  /** In every reachable state the stored PollCount plus the PollCount messages
      in flight is the number emitted (as an int64), and at most two are in
      flight: a window of 42 messages holds no more. */
  lemma {:induction false} PollCountIsConserved(s: State)
    requires Reachable(s)
    ensures |s.src| == 2 && |s.src[0].pending| <= |s.src[0].stream|
    ensures Base(Lookup(s.mem.store, POLL_COUNT)) == Wrap(Polls(Sent(s.src[0])) - Polls(InFlight(s)))
    ensures Polls(InFlight(s)) <= 2
  {
    ReachableInv(s);
    StoredPolls(s);
    var moving, x, y := InHand(s.cons) + s.upd.buf, s.src[0], s.src[1];
    assert Entered(s) == s.applied + moving;
    PollsOfFirstSource(x, s.applied, moving);
    ExtraHasNoPolls(y, Own(Entered(s), 1));
    PollsInFlight(moving, x, y);
  }

  /** The second source sends no PollCount. */
  lemma {:induction false} ExtraHasNoPolls(y: Source, own: seq<Metrics>)
    requires SourceInv(y, 1, own)
    ensures Polls(Carried(y.fwd)) == 0 && Polls(y.ch.buf) == 0
  {
    forall m | m in Upstream(y)
      ensures m.id != POLL_COUNT
    {
      assert m in y.stream;
    }
    NoHits(Carried(y.fwd));
    NoHits(y.ch.buf);
  }

  lemma {:induction false} NoHits(ms: seq<Metrics>)
    requires forall m :: m in ms ==> m.id != POLL_COUNT
    ensures Polls(ms) == 0
  {
    if ms != [] {
      assert ms[0] in ms && forall m :: m in ms[1..] ==> m in ms;
      NoHits(ms[1..]);
    }
  }

  lemma {:induction false} StoredPolls(s: State)
    requires Inv(s)
    ensures Base(Lookup(s.mem.store, POLL_COUNT)) == Wrap(Polls(s.applied))
  {
    BatchMeaning(EMPTY, s.applied);
    assert forall m :: m in s.applied ==> m in Entered(s);
    PollsSumToCount(s.applied);
    assert Lookup(s.mem.store, POLL_COUNT) == KeyMeaning(None, Hits(s.applied, POLL_COUNT));
  }

  // ---------- Confluence ----------

  ghost predicate Final(s: State) {
    s.cons.Stopped?
  }

  /** A stopped consumer has applied every message of both streams, each once and
      in the order of its source. */
  lemma {:induction false} FinalIsDrained(s: State, i: nat)
    requires Inv(s) && Final(s) && i < 2
    ensures Own(s.applied, i) == s.src[i].stream && s.src[i].exited
  {
    assert s.src[0].fwd.Returned? && s.src[1].fwd.Returned?;
    assert Entered(s) == s.applied;
    assert Upstream(s.src[i]) == [];
  }

  lemma {:induction false} SameHitsSameBatch(xs: seq<Metrics>, ys: seq<Metrics>)
    requires forall k :: Hits(xs, k) == Hits(ys, k)
    requires BatchSpec(EMPTY, xs).out.Done?
    ensures BatchSpec(EMPTY, xs) == BatchSpec(EMPTY, ys)
  {
    BatchMeaning(EMPTY, xs);
    BatchMeaning(EMPTY, ys);
    assert Compatible(map[], ys) by {
      assert Compatible(map[], xs);
      forall k
        ensures KeyCompatible(Lookup(map[], k), Hits(ys, k))
      {
        assert KeyCompatible(Lookup(map[], k), Hits(xs, k)) && Hits(xs, k) == Hits(ys, k);
      }
    }
    var a, b := BatchSpec(EMPTY, xs).st.store, BatchSpec(EMPTY, ys).st.store;
    forall k
      ensures k in a <==> k in b
      ensures k in a ==> a[k] == b[k]
    {
      assert Lookup(a, k) == Lookup(b, k);
    }
    assert a == b;
  }

  /** What the agent's store holds of the two streams at any moment. */
  function Absorbed(s: State): seq<Metrics> {
    Own(s.applied, 0) + Own(s.applied, 1)
  }

  lemma {:induction false} AppliedIsPrefix(x: Source, i: nat, applied: seq<Metrics>, moving: seq<Metrics>)
    requires Own(applied + moving, i) + Upstream(x) == x.stream
    ensures Own(applied, i) <= x.stream
  {
    OwnAppend(applied, moving, i);
    assert x.stream == Own(applied, i) + (Own(moving, i) + Upstream(x));
  }

  lemma {:induction false} AbsorbedHits(s: State, k: string)
    ensures Hits(s.applied, k) == Hits(Absorbed(s), k)
  {
    HitsOfOwn(s.applied, 0, k);
    HitsOfOwn(s.applied, 1, k);
    HitsAppend(Own(s.applied, 0), Own(s.applied, 1), k);
  }

  /** In every reachable state, whatever the interleaving so far, the store is
      the one that applying a prefix of the first stream and then a prefix of the
      second, one by one, would give. */
  lemma {:induction false} SnapshotIsSequential(s: State)
    requires Reachable(s)
    ensures |s.src| == 2
    ensures Own(s.applied, 0) <= s.src[0].stream && Own(s.applied, 1) <= s.src[1].stream
    ensures BatchSpec(EMPTY, Absorbed(s)) == StepResult(s.mem, Done)
  {
    ReachableInv(s);
    var moving := InHand(s.cons) + s.upd.buf;
    assert Entered(s) == s.applied + moving;
    AppliedIsPrefix(s.src[0], 0, s.applied, moving);
    AppliedIsPrefix(s.src[1], 1, s.applied, moving);
    forall k
      ensures Hits(s.applied, k) == Hits(Absorbed(s), k)
    {
      AbsorbedHits(s, k);
    }
    SameHitsSameBatch(s.applied, Absorbed(s));
  }

  /** Every complete run, whatever its interleaving, ends with the store that
      applying the first stream and then the second, one by one, would give. */
  lemma {:induction false} CompleteRunIsSequential(s: State)
    requires Complete(s)
    ensures BatchSpec(EMPTY, s.src[0].stream + s.src[1].stream) == StepResult(s.mem, Done)
  {
    ReachableInv(s);
    SnapshotIsSequential(s);
    FinalIsDrained(s, 0);
    FinalIsDrained(s, 1);
  }

  /** Confluence: complete runs with the same streams end with the same store. */
  lemma {:induction false} Confluence(s: State, s': State)
    requires Complete(s) && Complete(s')
    requires s.src[0].stream == s'.src[0].stream && s.src[1].stream == s'.src[1].stream
    ensures s.mem == s'.mem
  {
    CompleteRunIsSequential(s);
    CompleteRunIsSequential(s');
  }

  // ---------- Drain and termination ----------

  function SourceMeasure(x: Source): nat {
    6 * |x.pending| + 5 * |x.ch.buf| + 4 * |Carried(x.fwd)|
    + (if x.exited then 0 else 1) + (if x.fwd.Returned? then 0 else 1)
  }

  /** A weight on every message not yet applied, by how far it has to go, and one
      for every goroutine that has not ended. */
  function Measure(s: State): nat
    requires |s.src| == 2
  {
    SourceMeasure(s.src[0]) + SourceMeasure(s.src[1]) + 3 * |s.upd.buf| + 2 * |InHand(s.cons)|
    + (if s.done then 0 else 1) + (if s.closer then 0 else 1) + (if s.cons.Stopped? then 0 else 1)
  }

  lemma {:induction false} LocalStepDecreases(x: Source, done: bool, l: Label)
    requires IsLocal(l) && !l.Tick? && LocalStep(x, done, l).To?
    ensures SourceMeasure(LocalStep(x, done, l).x) < SourceMeasure(x)
  {
  }

  lemma {:induction false} LocalStepShape(s: State, s': State, l: Label)
    requires |s.src| == 2 && IsLocal(l) && Step(s, l) == Some(s') && !s'.crashed
    ensures l.i < 2 && LocalStep(s.src[l.i], s.done, l).To?
    ensures s' == s.(src := s.src[l.i := LocalStep(s.src[l.i], s.done, l).x], wg := s'.wg)
  {
  }

  lemma {:induction false} LocalMeasureDecreases(s: State, s': State, l: Label)
    requires |s.src| == 2 && IsLocal(l) && Step(s, l) == Some(s') && !l.Tick? && !s'.crashed
    ensures |s'.src| == 2 && Measure(s') < Measure(s)
  {
    LocalStepShape(s, s', l);
    LocalStepDecreases(s.src[l.i], s.done, l);
    assert s'.src[1 - l.i] == s.src[1 - l.i];
  }

  lemma {:induction false} ForwardMeasureDecreases(s: State, s': State, i: nat)
    requires |s.src| == 2 && ForwardStep(s, i) == Some(s') && !s'.crashed
    ensures |s'.src| == 2 && Measure(s') < Measure(s)
  {
    assert s'.src[1 - i] == s.src[1 - i];
    assert SourceMeasure(s'.src[i]) + 4 == SourceMeasure(s.src[i]);
  }

  lemma {:induction false} SinkMeasureDecreases(s: State, s': State, l: Label)
    requires |s.src| == 2 && Step(s, l) == Some(s') && !IsLocal(l) && !l.Forward? && !s'.crashed
    ensures |s'.src| == 2 && Measure(s') < Measure(s)
  {
    assert s'.src == s.src;
  }

  lemma {:induction false} MeasureDecreases(s: State, s': State, l: Label)
    requires |s.src| == 2 && Step(s, l) == Some(s') && !l.Tick? && !s'.crashed
    ensures |s'.src| == 2 && Measure(s') < Measure(s)
  {
    if IsLocal(l) {
      LocalMeasureDecreases(s, s', l);
    } else if l.Forward? {
      ForwardMeasureDecreases(s, s', l.i);
    } else {
      SinkMeasureDecreases(s, s', l);
    }
  }

  lemma {:induction false} RunSnoc(s: State, ls: seq<Label>, l: Label)
    requires Run(s, ls).Some?
    ensures Run(s, ls + [l]) == Step(Run(s, ls).value, l)
    decreases ls
  {
    if ls == [] {
      assert Run(s, [l]) == match Step(s, l) case None => None case Some(s') => Run(s', []);
    } else {
      assert (ls + [l])[1..] == ls[1..] + [l];
      RunSnoc(Step(s, ls[0]).value, ls[1..], l);
    }
  }

  /** Every step but a tick makes progress. */
  lemma {:induction false} ReachableStep(s: State, s': State, l: Label)
    requires Reachable(s) && Step(s, l) == Some(s')
    ensures Reachable(s') && |s.src| == 2 && |s'.src| == 2
    ensures !l.Tick? ==> Measure(s') < Measure(s)
  {
    var ls :| Run(INIT, ls) == Some(s);
    RunSnoc(INIT, ls, l);
    assert Run(INIT, ls + [l]) == Some(s');
    ReachableInv(s);
    ReachableInv(s');
    if !l.Tick? {
      MeasureDecreases(s, s', l);
    }
  }

  /** Some step that is not a tick, for a state that has been cancelled and has
      not finished. */
  function NextLabel(s: State): Label
    requires |s.src| == 2
  {
    if s.cons.Applying? then Apply
    else if s.upd.buf != [] then Receive
    else if s.upd.closed then Stop
    else if s.wg == 0 then CloseUpdate
    else NextOfSource(s, if s.src[0].fwd.Returned? then 1 else 0)
  }

  function NextOfSource(s: State, i: nat): Label
    requires i < |s.src|
  {
    var x := s.src[i];
    if x.fwd.Holding? then Forward(i)
    else if x.ch.buf != [] then Take(i)
    else if x.ch.closed then Finish(i)
    else if x.pending != [] then Emit(i)
    else Leave(i)
  }

  /** A source whose forwarder has not returned can move, when the update
      channel is empty and open. */
  lemma {:induction false} SourceNotStuck(s: State, i: nat, own: seq<Metrics>)
    requires i < |s.src| && i < 2 && SourceInv(s.src[i], i, own) && !s.src[i].fwd.Returned?
    requires !s.crashed && s.done && s.wg > 0 && s.upd == Chan([], false)
    ensures Step(s, NextOfSource(s, i)).Some? && Step(s, NextOfSource(s, i)).value.done
  {
    var l := NextOfSource(s, i);
    if IsLocal(l) {
      assert LocalStep(s.src[i], s.done, l).To?;
    }
  }

  lemma {:induction false} ConsumerNotStuck(s: State)
    requires Inv(s) && s.cons.Applying?
    ensures Step(s, Apply).Some?
  {
    assert Entered(s)[|s.applied|] == s.cons.m && s.cons.m in Entered(s);
    ConsumeIsElement(s.mem, s.cons.m);
  }

  /** The end of the pipeline can move, or some source can. */
  lemma {:induction false} ReceiverNotStuck(s: State)
    requires |s.src| == 2 && SourcesInv(s) && !s.crashed && s.done && s.cons.Waiting?
    requires s.upd.closed == s.closer && s.wg >= 0
    requires s.wg > 0 ==> !s.src[0].fwd.Returned? || !s.src[1].fwd.Returned?
    ensures !NextLabel(s).Tick? && Step(s, NextLabel(s)).Some? && Step(s, NextLabel(s)).value.done
  {
    if s.upd.buf == [] && !s.upd.closed && s.wg != 0 {
      var i := if s.src[0].fwd.Returned? then 1 else 0;
      SourceNotStuck(s, i, Own(Entered(s), i));
    }
  }

  lemma {:induction false} NotStuck(s: State)
    requires Reachable(s) && |s.src| == 2 && s.done && !Final(s)
    ensures !NextLabel(s).Tick? && Step(s, NextLabel(s)).Some? && Step(s, NextLabel(s)).value.done
  {
    ReachableInv(s);
    if s.cons.Applying? {
      ConsumerNotStuck(s);
    } else {
      ReceiverNotStuck(s);
    }
  }

  predicate NoTicks(ls: seq<Label>) {
    forall l :: l in ls ==> !l.Tick?
  }

  /** No step but a tick changes what the collectors have produced. */
  lemma {:induction false} StreamsStay(s: State, s': State, l: Label)
    requires Step(s, l) == Some(s') && !l.Tick? && |s.src| == 2
    ensures |s'.src| == 2 && s'.src[0].stream == s.src[0].stream && s'.src[1].stream == s.src[1].stream
  {
  }

  /** Without further ticks a run is bounded, keeps both streams, and if it can
      go no further after cancellation it is complete: no deadlock. */
  lemma {:induction false} TicklessRunsEnd(s: State, ls: seq<Label>)
    requires Reachable(s) && |s.src| == 2 && NoTicks(ls) && Run(s, ls).Some?
    ensures var e := Run(s, ls).value;
            && Reachable(e) && |e.src| == 2
            && |ls| + Measure(e) <= Measure(s)
            && e.src[0].stream == s.src[0].stream && e.src[1].stream == s.src[1].stream
            && (e.done && (forall l: Label :: !l.Tick? ==> Step(e, l).None?) ==> Final(e))
    decreases ls
  {
    if ls == [] {
      if s.done && !Final(s) {
        NotStuck(s);
      }
    } else {
      var s' := Step(s, ls[0]).value;
      assert ls[0] in ls && forall l :: l in ls[1..] ==> l in ls;
      ReachableStep(s, s', ls[0]);
      StreamsStay(s, s', ls[0]);
      TicklessRunsEnd(s', ls[1..]);
    }
  }

  /** The labels that drain a cancelled pipeline. */
  ghost function Drain(s: State): (ls: seq<Label>)
    requires Reachable(s) && |s.src| == 2 && s.done
    ensures NoTicks(ls) && Run(s, ls).Some? && Final(Run(s, ls).value)
    decreases if |s.src| == 2 then Measure(s) else 0
  {
    if Final(s) then []
    else
      NotStuck(s);
      var l := NextLabel(s);
      var s' := Step(s, l).value;
      ReachableStep(s, s', l);
      var rest := Drain(s');
      assert ([l] + rest)[1..] == rest;
      [l] + rest
  }

  /** From every reachable state after cancellation the consumer can be driven to
      its end without further ticks, and there every message of both streams has
      been applied exactly once. */
  lemma {:induction false} CancelledPipelineDrains(s: State)
    requires Reachable(s) && |s.src| == 2 && s.done
    ensures exists ls ::
              && NoTicks(ls) && Run(s, ls).Some? && Final(Run(s, ls).value)
              && multiset(Run(s, ls).value.applied) == multiset(s.src[0].stream + s.src[1].stream)
  {
    var ls := Drain(s);
    TicklessRunsEnd(s, ls);
    CompleteAppliesAll(Run(s, ls).value);
  }

  lemma {:induction false} CompleteAppliesAll(s: State)
    requires Complete(s)
    ensures multiset(s.applied) == multiset(s.src[0].stream + s.src[1].stream)
  {
    ReachableInv(s);
    FinalIsDrained(s, 0);
    FinalIsDrained(s, 1);
    OwnersPartition(s.applied);
  }

  lemma {:induction false} OwnersPartition(ms: seq<Metrics>)
    ensures multiset(ms) == multiset(Own(ms, 0)) + multiset(Own(ms, 1))
    decreases |ms|
  {
    if ms != [] {
      var n := |ms| - 1;
      assert ms == ms[..n] + [ms[n]];
      OwnersPartition(ms[..n]);
      assert Owner(ms[n]) == 0 || Owner(ms[n]) == 1;
    }
  }
}
