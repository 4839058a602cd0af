// What the readings of the collectors' ticks become: in the streams, in every
// snapshot of the agent's store, and in the store of a complete run.

module PipelineTicks {
  import opened Wrappers
  import opened Int64
  import opened Models
  import opened AbstractStore
  import opened Pipeline
  import opened PipelineInvariant
  import opened PipelineTheorems

  /** The readings of the ticks of source `i`, in order. */
  function TicksOf(ls: seq<Label>, i: nat): seq<seq<Float64>> {
    if ls == [] then []
    else
      var l := ls[|ls| - 1];
      TicksOf(ls[..|ls| - 1], i) + if l.Tick? && l.i == i then [l.readings] else []
  }

  /** How many messages a tick sends, and how many sensors it reads. */
  function Width(i: nat): nat {
    if i == 0 then 29 else 3
  }

  function Sensors(i: nat): nat {
    if i == 0 then 28 else 3
  }

  /** The name of the `n`th message of a tick. */
  function NameAt(i: nat, n: nat): string
    requires n < Width(i)
  {
    if i == 0 then if n < 27 then GAUGE_NAMES[n] else if n == 27 then POLL_COUNT else RANDOM_VALUE
    else ["TotalMemory", "FreeMemory", "CPUutilization1"][n]
  }

  /** The number it carries. PollCount is no sensor, so the random value is read
      next to last. */
  function NumberAt(i: nat, n: nat, r: seq<Float64>): Any
    requires n < Width(i) && |r| == Sensors(i)
  {
    if i == 0 && n == 27 then Int(1) else if i == 0 && n == 28 then Flt(r[27]) else Flt(r[n])
  }

  // ---------- Streams ----------

  ghost predicate RightSizes(i: nat, rs: seq<seq<Float64>>) {
    forall k :: 0 <= k < |rs| ==> |rs[k]| == Sensors(i)
  }

  /** The messages of a list of ticks. */
  ghost function Sends(i: nat, rs: seq<seq<Float64>>): seq<Metrics>
    requires i < 2 && RightSizes(i, rs)
  {
    if rs == [] then [] else Sends(i, rs[..|rs| - 1]) + TickMessages(i, rs[|rs| - 1])
  }

  /** A tick carries, message by message, the names of its source in their order,
      each with its own reading. */
  ghost predicate CarriesTick(i: nat, ms: seq<Metrics>, r: seq<Float64>)
    requires |r| == Sensors(i)
  {
    && |ms| == Width(i)
    && forall n :: 0 <= n < Width(i) ==> ms[n].id == NameAt(i, n) && ms[n].actual == NumberAt(i, n, r)
  }

  lemma {:induction false} TickCarries(i: nat, r: seq<Float64>)
    requires i < 2 && |r| == Sensors(i)
    ensures CarriesTick(i, TickMessages(i, r), r)
  {
  }

  /** The last label of a run. */
  lemma {:induction false} RunSplits(s: State, ls: seq<Label>)
    requires ls != [] && Run(s, ls).Some?
    ensures Run(s, ls[..|ls| - 1]).Some?
    ensures Step(Run(s, ls[..|ls| - 1]).value, ls[|ls| - 1]) == Run(s, ls)
    decreases ls
  {
    var s' := Step(s, ls[0]).value;
    if |ls| == 1 {
      assert ls[..0] == [] && ls[1..] == [] && Run(s', []) == Some(s');
    } else {
      assert ls[..|ls| - 1][1..] == ls[1..][..|ls| - 2];
      RunSplits(s', ls[1..]);
    }
  }

  lemma {:induction false} TickExtends(s: State, s': State, l: Label, i: nat)
    requires |s.src| == 2 && i < 2 && Step(s, l) == Some(s') && !s'.crashed
    ensures |s'.src| == 2
    ensures if l.Tick? && l.i == i then
              |l.readings| == Sensors(i) && s'.src[i].stream == s.src[i].stream + TickMessages(i, l.readings)
            else s'.src[i].stream == s.src[i].stream
  {
  }

  /** The stream of a source is what its ticks have read, in their order. */
  lemma {:induction false} StreamIsTicks(ls: seq<Label>, i: nat)
    requires Run(INIT, ls).Some? && i < 2
    ensures |Run(INIT, ls).value.src| == 2 && RightSizes(i, TicksOf(ls, i))
    ensures Run(INIT, ls).value.src[i].stream == Sends(i, TicksOf(ls, i))
    decreases |ls|
  {
    if ls != [] {
      var early, l := ls[..|ls| - 1], ls[|ls| - 1];
      RunSplits(INIT, ls);
      StreamIsTicks(early, i);
      var s, s' := Run(INIT, early).value, Run(INIT, ls).value;
      NeverCrashes(s');
      TickExtends(s, s', l, i);
      var rs := TicksOf(early, i);
      if l.Tick? && l.i == i {
        assert (rs + [l.readings])[..|rs|] == rs;
      } else {
        assert TicksOf(ls, i) == rs;
      }
    }
  }

  /** Where block `k` of a stream starts. */
  function Start(i: nat, k: nat): nat {
    if i == 0 then 29 * k else 3 * k
  }

  /** `ms` is one block of messages per tick, each carrying its tick. */
  ghost predicate CarriesTicks(i: nat, ms: seq<Metrics>, rs: seq<seq<Float64>>)
    requires RightSizes(i, rs)
  {
    && |ms| == Start(i, |rs|)
    && forall k :: 0 <= k < |rs| ==> CarriesTick(i, ms[Start(i, k)..Start(i, k + 1)], rs[k])
  }

  lemma {:induction false} BlocksExtend(i: nat, rs: seq<seq<Float64>>, r: seq<Float64>, ms: seq<Metrics>,
                                        block: seq<Metrics>)
    requires RightSizes(i, rs) && CarriesTicks(i, ms, rs) && |r| == Sensors(i) && CarriesTick(i, block, r)
    ensures RightSizes(i, rs + [r]) && CarriesTicks(i, ms + block, rs + [r])
  {
    forall k | 0 <= k <= |rs|
      ensures CarriesTick(i, (ms + block)[Start(i, k)..Start(i, k + 1)], (rs + [r])[k])
    {
      if k < |rs| {
        assert CarriesTick(i, ms[Start(i, k)..Start(i, k + 1)], rs[k]);
        assert (ms + block)[Start(i, k)..Start(i, k + 1)] == ms[Start(i, k)..Start(i, k + 1)];
      } else {
        assert (ms + block)[Start(i, k)..Start(i, k + 1)] == block;
      }
    }
  }

  lemma {:induction false} SendsCarries(i: nat, rs: seq<seq<Float64>>)
    requires i < 2 && RightSizes(i, rs)
    ensures CarriesTicks(i, Sends(i, rs), rs)
  {
    if rs != [] {
      var n := |rs| - 1;
      var before, ms := rs[..n], Sends(i, rs[..n]);
      SendsCarries(i, before);
      TickCarries(i, rs[n]);
      BlocksExtend(i, before, rs[n], ms, TickMessages(i, rs[n]));
      assert rs == before + [rs[n]];
    }
  }

  /** In every run the stream of a source has one block of messages per tick, and
      the `k`th block carries, name by name, the readings of the `k`th tick. */
  lemma {:induction false} StreamCarriesTicks(ls: seq<Label>, i: nat)
    requires Run(INIT, ls).Some? && i < 2
    ensures |Run(INIT, ls).value.src| == 2 && RightSizes(i, TicksOf(ls, i))
    ensures CarriesTicks(i, Run(INIT, ls).value.src[i].stream, TicksOf(ls, i))
  {
    StreamIsTicks(ls, i);
    SendsCarries(i, TicksOf(ls, i));
  }

  // ---------- Snapshots ----------

  lemma {:induction false} TickNamesDiffer(i: nat, a: nat, b: nat)
    requires i < 2 && a < b < Width(i)
    ensures NameAt(i, a) != NameAt(i, b)
  {
    if i == 0 && a < 27 {
      GaugeNamesAreDistinctFromTheRest(a);
      RandomValueDiffers(a);
      if b < 27 {
        GaugeNamesDiffer(a, b);
      }
    }
  }

  lemma {:induction false} NameHasOwner(i: nat, n: nat)
    requires i < 2 && n < Width(i)
    ensures IsExtra(NameAt(i, n)) <==> i == 1
  {
    if i == 0 && n < 27 {
      GaugeNamesAreDistinctFromTheRest(n);
    }
  }

  lemma {:induction false} PartOfTickHits(i: nat, r: seq<Float64>, cut: nat, n: nat)
    requires i < 2 && |r| == Sensors(i) && cut <= Width(i) && n < Width(i)
    ensures |TickMessages(i, r)| == Width(i)
    ensures Hits(TickMessages(i, r)[..cut], NameAt(i, n)) == if n < cut then [NumberAt(i, n, r)] else []
  {
    TickCarries(i, r);
    var ms := TickMessages(i, r)[..cut];
    forall a, b | 0 <= a < b < cut
      ensures ms[a].id != ms[b].id
    {
      TickNamesDiffer(i, a, b);
    }
    HitsOfDistinct(ms, NameAt(i, n));
    if n < cut {
      assert ms[n].id == NameAt(i, n);
    } else {
      forall a | 0 <= a < cut
        ensures ms[a].id != NameAt(i, n)
      {
        TickNamesDiffer(i, a, n);
      }
    }
  }

  /** What a list of ticks brings for one name. */
  ghost function Numbers(i: nat, n: nat, rs: seq<seq<Float64>>): seq<Any>
    requires n < Width(i) && RightSizes(i, rs)
  {
    if rs == [] then [] else Numbers(i, n, rs[..|rs| - 1]) + [NumberAt(i, n, rs[|rs| - 1])]
  }

  lemma {:induction false} SendsHits(i: nat, rs: seq<seq<Float64>>, n: nat)
    requires i < 2 && n < Width(i) && RightSizes(i, rs)
    ensures Hits(Sends(i, rs), NameAt(i, n)) == Numbers(i, n, rs)
  {
    if rs != [] {
      var before, ms := rs[..|rs| - 1], TickMessages(i, rs[|rs| - 1]);
      SendsHits(i, before, n);
      PartOfTickHits(i, rs[|rs| - 1], Width(i), n);
      assert ms[..Width(i)] == ms;
      HitsAppend(Sends(i, before), ms, NameAt(i, n));
    }
  }

  /** The stored reading of a name after `c` ticks: PollCount counts them, a gauge
      has the last one's. */
  ghost function AfterTicks(i: nat, n: nat, rs: seq<seq<Float64>>, c: nat): Option<Reading>
    requires n < Width(i) && RightSizes(i, rs) && c <= |rs|
  {
    if c == 0 then None
    else
      match NumberAt(i, n, rs[c - 1])
      case Flt(f) => Some(Gauge(f))
      case _ => Some(Counter(Wrap(c)))
  }

  lemma {:induction false} NumbersMeaning(i: nat, n: nat, rs: seq<seq<Float64>>)
    requires n < Width(i) && RightSizes(i, rs)
    ensures |Numbers(i, n, rs)| == |rs|
    ensures i == 0 && n == 27 ==> AllInt(Numbers(i, n, rs)) && Sum(Numbers(i, n, rs)) == |rs|
    ensures !(i == 0 && n == 27) ==> forall v :: v in Numbers(i, n, rs) ==> v.Flt?
    ensures KeyMeaning(None, Numbers(i, n, rs)) == AfterTicks(i, n, rs, |rs|)
  {
    if rs != [] {
      var before, v := Numbers(i, n, rs[..|rs| - 1]), NumberAt(i, n, rs[|rs| - 1]);
      NumbersMeaning(i, n, rs[..|rs| - 1]);
      SumAppend(before, [v]);
      var all := Numbers(i, n, rs);
      assert all == before + [v] && all[|rs| - 1] == v && v in all;
      assert forall u :: u in all ==> u in before || u == v;
    }
  }

  /** Source `i` has had `q` whole ticks stored and of the next one the first `r`
      messages. */
  ghost predicate HoldsTicks(s: Store, i: nat, rs: seq<seq<Float64>>, q: nat, r: nat)
    requires i < 2 && RightSizes(i, rs)
  {
    && q <= |rs| && r < Width(i) && (q == |rs| ==> r == 0)
    && forall n :: 0 <= n < Width(i) ==> Lookup(s, NameAt(i, n)) == AfterTicks(i, n, rs, if n < r then q + 1 else q)
  }

  /** The front of a stream when `q` ticks and `r` messages of the next are in it. */
  ghost function Front(i: nat, rs: seq<seq<Float64>>, q: nat, r: nat): seq<Metrics>
    requires i < 2 && RightSizes(i, rs) && q <= |rs| && r < Width(i) && (q == |rs| ==> r == 0)
    requires r > 0 ==> |TickMessages(i, rs[q])| == Width(i)
  {
    Sends(i, rs[..q]) + if r == 0 then [] else TickMessages(i, rs[q])[..r]
  }

  lemma {:induction false} SplitFront(front: seq<Metrics>, before: seq<Metrics>, block: seq<Metrics>)
    requires front <= before + block
    ensures |front| <= |before| ==> front <= before
    ensures |before| < |front| ==>
              |front| - |before| <= |block| && front == before + block[..|front| - |before|]
  {
  }

  lemma {:induction false} TickLength(i: nat, r: seq<Float64>)
    requires i < 2 && |r| == Sensors(i)
    ensures |TickMessages(i, r)| == Width(i)
  {
  }

  /** Whatever stands at the front of a stream is whole ticks and part of one. */
  lemma {:induction false} FrontOfSends(i: nat, rs: seq<seq<Float64>>, front: seq<Metrics>) returns (q: nat, r: nat)
    requires i < 2 && RightSizes(i, rs) && front <= Sends(i, rs)
    ensures q <= |rs| && r < Width(i) && (q == |rs| ==> r == 0)
    ensures r > 0 ==> |TickMessages(i, rs[q])| == Width(i)
    ensures front == Front(i, rs, q, r)
  {
    if rs == [] {
      q, r := 0, 0;
    } else {
      var m := |rs| - 1;
      var before := Sends(i, rs[..m]);
      TickLength(i, rs[m]);
      SplitFront(front, before, TickMessages(i, rs[m]));
      if |front| <= |before| {
        q, r := FrontOfSends(i, rs[..m], front);
        assert rs[..m][..q] == rs[..q];
      } else if |front| == |before| + Width(i) {
        q, r := |rs|, 0;
        assert rs[..q] == rs && front == Sends(i, rs);
      } else {
        q, r := m, |front| - |before|;
      }
    }
  }

  lemma {:induction false} NumbersSnoc(i: nat, n: nat, rs: seq<seq<Float64>>, q: nat)
    requires n < Width(i) && RightSizes(i, rs) && q < |rs|
    ensures Numbers(i, n, rs[..q + 1]) == Numbers(i, n, rs[..q]) + [NumberAt(i, n, rs[q])]
  {
    assert rs[..q + 1][..q] == rs[..q];
  }

  lemma {:induction false} FrontHits(i: nat, rs: seq<seq<Float64>>, q: nat, r: nat, n: nat)
    requires i < 2 && RightSizes(i, rs) && q <= |rs| && r < Width(i) && (q == |rs| ==> r == 0) && n < Width(i)
    requires r > 0 ==> |TickMessages(i, rs[q])| == Width(i)
    ensures Hits(Front(i, rs, q, r), NameAt(i, n)) == Numbers(i, n, rs[..if n < r then q + 1 else q])
  {
    var name, whole := NameAt(i, n), Sends(i, rs[..q]);
    SendsHits(i, rs[..q], n);
    if r == 0 {
      assert Front(i, rs, q, r) == whole;
    } else {
      HitsAppend(whole, TickMessages(i, rs[q])[..r], name);
      PartOfTickHits(i, rs[q], r, n);
      NumbersSnoc(i, n, rs, q);
    }
  }

  lemma {:induction false} StoredIsFront(s: State, i: nat, n: nat)
    requires Reachable(s) && i < 2 && n < Width(i)
    ensures Lookup(s.mem.store, NameAt(i, n)) == KeyMeaning(None, Hits(Own(s.applied, i), NameAt(i, n)))
  {
    ReachableInv(s);
    BatchMeaning(EMPTY, s.applied);
    NameHasOwner(i, n);
    HitsOfOwn(s.applied, i, NameAt(i, n));
  }

  lemma {:induction false} FrontName(i: nat, rs: seq<seq<Float64>>, q: nat, r: nat, n: nat)
    requires i < 2 && RightSizes(i, rs) && q <= |rs| && r < Width(i) && (q == |rs| ==> r == 0) && n < Width(i)
    requires r > 0 ==> |TickMessages(i, rs[q])| == Width(i)
    ensures KeyMeaning(None, Hits(Front(i, rs, q, r), NameAt(i, n))) == AfterTicks(i, n, rs, if n < r then q + 1 else q)
  {
    var c := if n < r then q + 1 else q;
    FrontHits(i, rs, q, r, n);
    NumbersMeaning(i, n, rs[..c]);
    assert c > 0 ==> rs[..c][c - 1] == rs[c - 1];
  }

  lemma {:induction false} FrontIsHeld(s: State, i: nat, rs: seq<seq<Float64>>, q: nat, r: nat)
    requires Reachable(s) && i < 2 && RightSizes(i, rs) && q <= |rs| && r < Width(i) && (q == |rs| ==> r == 0)
    requires r > 0 ==> |TickMessages(i, rs[q])| == Width(i)
    requires Own(s.applied, i) == Front(i, rs, q, r)
    ensures HoldsTicks(s.mem.store, i, rs, q, r)
  {
    forall n | 0 <= n < Width(i)
      ensures Lookup(s.mem.store, NameAt(i, n)) == AfterTicks(i, n, rs, if n < r then q + 1 else q)
    {
      StoredIsFront(s, i, n);
      FrontName(i, rs, q, r, n);
    }
  }

  lemma {:induction false} SnapshotOfSource(ls: seq<Label>, i: nat) returns (q: nat, r: nat)
    requires Run(INIT, ls).Some? && i < 2 && RightSizes(i, TicksOf(ls, i))
    ensures HoldsTicks(Run(INIT, ls).value.mem.store, i, TicksOf(ls, i), q, r)
    ensures Run(INIT, ls).value.cons.Stopped? ==> q == |TicksOf(ls, i)|
  {
    var s, rs := Run(INIT, ls).value, TicksOf(ls, i);
    assert Reachable(s);
    StreamIsTicks(ls, i);
    SnapshotIsSequential(s);
    q, r := FrontOfSends(i, rs, Own(s.applied, i));
    FrontIsHeld(s, i, rs, q, r);
    if s.cons.Stopped? {
      StoppedFront(s, i);
      FrontLength(i, rs, q, r);
    }
  }

  lemma {:induction false} StoppedFront(s: State, i: nat)
    requires Reachable(s) && s.cons.Stopped? && i < 2
    ensures |s.src| == 2 && Own(s.applied, i) == s.src[i].stream
  {
    ReachableInv(s);
    FinalIsDrained(s, i);
  }

  lemma {:induction false} FrontLength(i: nat, rs: seq<seq<Float64>>, q: nat, r: nat)
    requires i < 2 && RightSizes(i, rs) && q <= |rs| && r < Width(i) && (q == |rs| ==> r == 0)
    requires r > 0 ==> |TickMessages(i, rs[q])| == Width(i)
    requires Sends(i, rs) == Front(i, rs, q, r)
    ensures q == |rs|
  {
    SendsCarries(i, rs);
    SendsCarries(i, rs[..q]);
  }

  /** The store at any moment of any run: of each source it holds all readings of
      some tick, except that the first names in sending order may already have
      those of the next tick; PollCount is the number of ticks it has seen. */
  lemma {:induction false} SnapshotHoldsTicks(ls: seq<Label>)
    requires Run(INIT, ls).Some?
    ensures forall i :: 0 <= i < 2 ==>
              && RightSizes(i, TicksOf(ls, i))
              && exists q: nat, r: nat :: HoldsTicks(Run(INIT, ls).value.mem.store, i, TicksOf(ls, i), q, r)
  {
    forall i | 0 <= i < 2
      ensures RightSizes(i, TicksOf(ls, i))
      ensures exists q: nat, r: nat :: HoldsTicks(Run(INIT, ls).value.mem.store, i, TicksOf(ls, i), q, r)
    {
      StreamIsTicks(ls, i);
      var q, r := SnapshotOfSource(ls, i);
    }
  }

  /** A complete run, whatever its interleaving, ends with every gauge at the
      reading of its source's last tick and PollCount at the number of ticks. */
  lemma {:induction false} CompleteRunHoldsLastTick(ls: seq<Label>)
    requires Run(INIT, ls).Some? && Run(INIT, ls).value.cons.Stopped?
    ensures forall i :: 0 <= i < 2 ==>
              && RightSizes(i, TicksOf(ls, i))
              && HoldsTicks(Run(INIT, ls).value.mem.store, i, TicksOf(ls, i), |TicksOf(ls, i)|, 0)
  {
    forall i | 0 <= i < 2
      ensures RightSizes(i, TicksOf(ls, i))
      ensures HoldsTicks(Run(INIT, ls).value.mem.store, i, TicksOf(ls, i), |TicksOf(ls, i)|, 0)
    {
      StreamIsTicks(ls, i);
      var q, r := SnapshotOfSource(ls, i);
    }
  }

  lemma {:induction false} SentNames(i: nat, rs: seq<seq<Float64>>, m: Metrics)
    requires i < 2 && RightSizes(i, rs) && m in Sends(i, rs)
    ensures exists n: nat | n < Width(i) :: m.id == NameAt(i, n)
  {
    if m in Sends(i, rs[..|rs| - 1]) {
      SentNames(i, rs[..|rs| - 1], m);
    } else {
      TickCarries(i, rs[|rs| - 1]);
      var n :| 0 <= n < Width(i) && TickMessages(i, rs[|rs| - 1])[n] == m;
      assert m.id == NameAt(i, n);
    }
  }

  lemma {:induction false} HitIsSent(ms: seq<Metrics>, k: string) returns (m: Metrics)
    requires Hits(ms, k) != []
    ensures m in ms && m.id == k
  {
    if ms[0].id == k {
      m := ms[0];
    } else {
      m := HitIsSent(ms[1..], k);
    }
  }

  /** The agent's store never has a name that is not one of the 32. */
  lemma {:induction false} SnapshotNames(ls: seq<Label>, k: string)
    requires Run(INIT, ls).Some? && k in Run(INIT, ls).value.mem.store
    ensures exists i: nat, n: nat | i < 2 && n < Width(i) :: k == NameAt(i, n)
  {
    var s, i := Run(INIT, ls).value, if IsExtra(k) then 1 else 0;
    ReachableInv(s);
    SnapshotIsSequential(s);
    StreamIsTicks(ls, i);
    BatchMeaning(EMPTY, s.applied);
    HitsOfOwn(s.applied, i, k);
    assert Lookup(s.mem.store, k) == KeyMeaning(None, Hits(s.applied, k));
    var m := HitIsSent(Own(s.applied, i), k);
    assert m in s.src[i].stream;
    SentNames(i, TicksOf(ls, i), m);
  }

  // ---------- Every list of ticks happens ----------

  lemma {:induction false} TicksAppend(ls: seq<Label>, ks: seq<Label>, i: nat)
    ensures TicksOf(ls + ks, i) == TicksOf(ls, i) + TicksOf(ks, i)
    decreases |ks|
  {
    if ks == [] {
      assert ls + ks == ls;
    } else {
      assert (ls + ks)[..|ls + ks| - 1] == ls + ks[..|ks| - 1];
      TicksAppend(ls, ks[..|ks| - 1], i);
    }
  }

  lemma {:induction false} NoTicksNothing(ls: seq<Label>, i: nat)
    requires NoTicks(ls)
    ensures TicksOf(ls, i) == []
    decreases |ls|
  {
    if ls != [] {
      assert ls[|ls| - 1] in ls && forall l :: l in ls[..|ls| - 1] ==> l in ls;
      NoTicksNothing(ls[..|ls| - 1], i);
    }
  }

  lemma {:induction false} RunAppend(s: State, ls: seq<Label>, ks: seq<Label>)
    requires Run(s, ls).Some?
    ensures Run(s, ls + ks) == Run(Run(s, ls).value, ks)
    decreases ls
  {
    if ls == [] {
      assert ls + ks == ks;
    } else {
      assert (ls + ks)[1..] == ls[1..] + ks;
      RunAppend(Step(s, ls[0]).value, ls[1..], ks);
    }
  }

  /** Nothing is moving: only the collectors may have messages left to send. */
  predicate AtRest(s: State) {
    && |s.src| == 2 && !s.crashed
    && s.src[0] == NEW_SOURCE.(pending := s.src[0].pending, stream := s.src[0].stream)
    && s.src[1] == NEW_SOURCE.(pending := s.src[1].pending, stream := s.src[1].stream)
    && s.upd == Chan([], false) && s.cons.Waiting?
  }

  function Journey(i: nat): seq<Label> {
    [Emit(i), Take(i), Forward(i), Receive, Apply]
  }

  lemma {:induction false} FiveSteps(s0: State, s1: State, s2: State, s3: State, s4: State, s5: State, i: nat)
    requires Step(s0, Emit(i)) == Some(s1) && Step(s1, Take(i)) == Some(s2) && Step(s2, Forward(i)) == Some(s3)
    requires Step(s3, Receive) == Some(s4) && Step(s4, Apply) == Some(s5)
    ensures Run(s0, Journey(i)) == Some(s5)
  {
    var ls := Journey(i);
    assert Run(s5, []) == Some(s5);
    assert [Apply][1..] == [] && Run(s4, [Apply]) == Some(s5);
    assert [Receive, Apply][1..] == [Apply] && Run(s3, [Receive, Apply]) == Some(s5);
    assert [Forward(i), Receive, Apply][1..] == [Receive, Apply] && Run(s2, [Forward(i), Receive, Apply]) == Some(s5);
    assert ls[1..][1..] == [Forward(i), Receive, Apply] && ls[1..][0] == Take(i);
    assert Run(s1, ls[1..]) == Some(s5);
  }

  lemma {:induction false} Forwarded(s: State, i: nat, m: Metrics) returns (e: State)
    requires i < |s.src| && s.src[i].fwd == Holding(m) && !s.upd.closed && |s.upd.buf| < 20 && !s.crashed
    ensures Step(s, Forward(i)) == Some(e)
    ensures e == s.(upd := Chan(s.upd.buf + [m], false), src := s.src[i := s.src[i].(fwd := Idle)])
  {
    e := Step(s, Forward(i)).value;
  }

  /** Source `i` has nothing under way, and there is room in the update channel. */
  predicate SourceAtRest(s: State, i: nat) {
    && i < |s.src| && s.src[i] == NEW_SOURCE.(pending := s.src[i].pending, stream := s.src[i].stream)
    && !s.crashed && !s.upd.closed && |s.upd.buf| < 20
  }

  /** A message reaches the update channel. */
  lemma {:induction false} MessageUp(s: State, i: nat) returns (s1: State, s2: State, s3: State)
    requires SourceAtRest(s, i) && s.src[i].pending != []
    ensures Step(s, Emit(i)) == Some(s1) && Step(s1, Take(i)) == Some(s2) && Step(s2, Forward(i)) == Some(s3)
    ensures s3 == s.(src := s.src[i := s.src[i].(pending := s.src[i].pending[1..])],
                     upd := Chan(s.upd.buf + [s.src[i].pending[0]], false))
  {
    var m, x := s.src[i].pending[0], s.src[i].(pending := s.src[i].pending[1..]);
    s1 := Step(s, Emit(i)).value;
    assert [] + [m] == [m] && s1.src[i] == x.(ch := Chan([m], false));
    s2 := Step(s1, Take(i)).value;
    assert [m][1..] == [] && s2.src[i] == x.(fwd := Holding(m));
    assert s2.src == s.src[i := x.(fwd := Holding(m))];
    s3 := Forwarded(s2, i, m);
    assert s3.src == s.src[i := x];
  }

  lemma {:induction false} ConsumerApplies(s: State) returns (e: State)
    requires Reachable(s) && s.cons.Applying?
    ensures Step(s, Apply) == Some(e) && Reachable(e)
    ensures e == s.(cons := Waiting, mem := e.mem, applied := e.applied)
  {
    ReachableInv(s);
    ConsumerNotStuck(s);
    e := Step(s, Apply).value;
    ReachableStep(s, e, Apply);
    NeverCrashes(s);
    NeverCrashes(e);
  }

  /** And is applied. */
  lemma {:induction false} MessageDown(s: State, m: Metrics) returns (s1: State, e: State)
    requires Reachable(s) && s.upd == Chan([m], false) && s.cons.Waiting? && !s.crashed
    ensures Step(s, Receive) == Some(s1) && Step(s1, Apply) == Some(e) && Reachable(e)
    ensures e == s.(upd := Chan([], false), mem := e.mem, applied := e.applied)
  {
    s1 := Step(s, Receive).value;
    assert s1 == s.(cons := Applying(m), upd := Chan([], false));
    ReachableStep(s, s1, Receive);
    e := ConsumerApplies(s1);
  }

  /** One message goes all the way. */
  lemma {:induction false} OneMessage(s: State, i: nat) returns (e: State)
    requires Reachable(s) && AtRest(s) && i < 2 && s.src[i].pending != []
    ensures Run(s, Journey(i)) == Some(e) && Reachable(e) && AtRest(e)
    ensures e.src[i].pending == s.src[i].pending[1..] && e.src[1 - i] == s.src[1 - i] && e.done == s.done
  {
    assert SourceAtRest(s, i) && [] + [s.src[i].pending[0]] == [s.src[i].pending[0]];
    var s1, s2, s3 := MessageUp(s, i);
    ReachableStep(s, s1, Emit(i));
    ReachableStep(s1, s2, Take(i));
    ReachableStep(s2, s3, Forward(i));
    var s4;
    s4, e := MessageDown(s3, s.src[i].pending[0]);
    FiveSteps(s, s1, s2, s3, s4, e, i);
  }

  lemma {:induction false} AllMessages(s: State, i: nat) returns (ls: seq<Label>, e: State)
    requires Reachable(s) && AtRest(s) && i < 2
    ensures NoTicks(ls) && Run(s, ls) == Some(e) && Reachable(e) && AtRest(e)
    ensures e.src[i].pending == [] && e.src[1 - i] == s.src[1 - i] && e.done == s.done
    decreases |s.src[i].pending|
  {
    if s.src[i].pending == [] {
      ls, e := [], s;
    } else {
      var mid := OneMessage(s, i);
      var rest;
      rest, e := AllMessages(mid, i);
      ls := Journey(i) + rest;
      RunAppend(s, Journey(i), rest);
    }
  }

  /** A tick whose sensors give as many readings as its source has. */
  predicate ProperTick(l: Label) {
    l.Tick? && l.i < 2 && |l.readings| == Sensors(l.i)
  }

  lemma {:induction false} TickStarts(s: State, l: Label) returns (mid: State)
    requires Reachable(s) && AtRest(s) && s.src[0].pending == [] && s.src[1].pending == [] && ProperTick(l)
    ensures Step(s, l) == Some(mid) && Reachable(mid) && AtRest(mid) && mid.done == s.done
    ensures mid.src[1 - l.i].pending == []
  {
    mid := Step(s, l).value;
    ReachableStep(s, mid, l);
  }

  lemma {:induction false} OneTick(s: State, l: Label) returns (ls: seq<Label>, e: State)
    requires Reachable(s) && AtRest(s) && s.src[0].pending == [] && s.src[1].pending == [] && ProperTick(l)
    ensures Run(s, ls) == Some(e) && Reachable(e) && e.done == s.done
    ensures AtRest(e) && e.src[0].pending == [] && e.src[1].pending == []
    ensures forall i :: TicksOf(ls, i) == TicksOf([l], i)
  {
    var mid := TickStarts(s, l);
    var rest;
    rest, e := AllMessages(mid, l.i);
    ls := [l] + rest;
    assert ls[1..] == rest;
    forall i
      ensures TicksOf(ls, i) == TicksOf([l], i)
    {
      TicksAppend([l], rest, i);
      NoTicksNothing(rest, i);
    }
  }

  lemma {:induction false} TicksInTurn(s: State, ts: seq<Label>) returns (ls: seq<Label>, e: State)
    requires Reachable(s) && AtRest(s) && s.src[0].pending == [] && s.src[1].pending == []
    requires forall l :: l in ts ==> ProperTick(l)
    ensures Run(s, ls) == Some(e) && Reachable(e) && e.done == s.done
    ensures AtRest(e) && e.src[0].pending == [] && e.src[1].pending == []
    ensures forall i :: TicksOf(ls, i) == TicksOf(ts, i)
    decreases |ts|
  {
    if ts == [] {
      ls, e := [], s;
    } else {
      var early, l := ts[..|ts| - 1], ts[|ts| - 1];
      var before, mid := TicksInTurn(s, early);
      var more;
      more, e := OneTick(mid, l);
      ls := before + more;
      RunAppend(s, before, more);
      forall i
        ensures TicksOf(ls, i) == TicksOf(ts, i)
      {
        TicksAppend(before, more, i);
        TicksAppend(early, [l], i);
        assert ts == early + [l];
      }
    }
  }

  /** Any list of ticks is the list of ticks of some complete run, wherever in it
      the cancellation comes: a collector may tick on until it sees it. */
  lemma {:induction false} EveryTickListHappens(ts: seq<Label>, late: seq<Label>)
    returns (before: seq<Label>, after: seq<Label>)
    requires (forall l :: l in ts ==> ProperTick(l)) && (forall l :: l in late ==> ProperTick(l))
    ensures var ls := before + [Cancel] + after;
            Run(INIT, ls).Some? && Run(INIT, ls).value.cons.Stopped?
    ensures forall i :: TicksOf(before, i) == TicksOf(ts, i) && TicksOf(after, i) == TicksOf(late, i)
  {
    var e, e', mid;
    assert Run(INIT, []) == Some(INIT);
    before, e := TicksInTurn(INIT, ts);
    var c := Step(e, Cancel).value;
    ReachableStep(e, c, Cancel);
    mid, e' := TicksInTurn(c, late);
    var drain := Drain(e');
    after := mid + drain;
    RunAppend(c, mid, drain);
    assert ([Cancel] + after)[1..] == after && before + [Cancel] + after == before + ([Cancel] + after);
    RunAppend(INIT, before, [Cancel] + after);
    forall i
      ensures TicksOf(after, i) == TicksOf(late, i)
    {
      TicksAppend(mid, drain, i);
      NoTicksNothing(drain, i);
      assert TicksOf(late, i) + [] == TicksOf(late, i);
    }
  }

  // ---------- A full channel ----------

  function Emits(n: nat): seq<Label> {
    if n == 0 then [] else [Emit(0)] + Emits(n - 1)
  }

  lemma {:induction false} EmitsFill(s: State, n: nat)
    requires !s.crashed && |s.src| == 2 && !s.src[0].ch.closed && n <= |s.src[0].pending|
    requires |s.src[0].ch.buf| + n <= 20
    ensures Run(s, Emits(n)).Some?
    ensures var e := Run(s, Emits(n)).value;
            && !e.crashed && |e.src| == 2 && !e.src[0].ch.closed
            && |e.src[0].ch.buf| == |s.src[0].ch.buf| + n && |e.src[0].pending| == |s.src[0].pending| - n
    decreases n
  {
    if n > 0 {
      EmitsFill(Step(s, Emit(0)).value, n - 1);
      assert Emits(n)[1..] == Emits(n - 1);
    }
  }

  /** With its forwarder asleep the first collector sends 20 of its 29 messages and
      then waits. */
  lemma {:induction false} CollectorWaitsAfterTwenty(r: seq<Float64>)
    requires |r| == 28
    ensures var ls := [Tick(0, r)] + Emits(20);
            && Run(INIT, ls).Some? && |Run(INIT, ls).value.src| == 2
            && |Run(INIT, ls).value.src[0].ch.buf| == 20 && |Run(INIT, ls).value.src[0].pending| == 9
            && Step(Run(INIT, ls).value, Emit(0)).None?
  {
    var s := Step(INIT, Tick(0, r)).value;
    TickLength(0, r);
    EmitsFill(s, 20);
    assert ([Tick(0, r)] + Emits(20))[1..] == Emits(20);
  }

  function Trips(n: nat): seq<Label> {
    if n == 0 then [] else [Emit(0), Take(0), Forward(0)] + Trips(n - 1)
  }

  lemma {:induction false} ThreeSteps(s: State, s1: State, s2: State, s3: State, rest: seq<Label>)
    requires Step(s, Emit(0)) == Some(s1) && Step(s1, Take(0)) == Some(s2) && Step(s2, Forward(0)) == Some(s3)
    ensures Run(s, [Emit(0), Take(0), Forward(0)] + rest) == Run(s3, rest)
  {
    var ls := [Emit(0), Take(0), Forward(0)] + rest;
    assert ls[1..] == [Take(0), Forward(0)] + rest && ls[1..][1..] == [Forward(0)] + rest;
    assert ls[1..][1..][1..] == rest;
    assert Run(s2, ls[1..][1..]) == Run(s3, rest);
    assert Run(s1, ls[1..]) == Run(s2, ls[1..][1..]);
  }

  lemma {:induction false} TripsFill(s: State, n: nat) returns (e: State)
    requires n > 0 ==> SourceAtRest(s, 0) && n <= |s.src[0].pending| && |s.upd.buf| + n <= 20
    ensures Run(s, Trips(n)) == Some(e)
    ensures n > 0 ==>
              && |e.src| == |s.src| && !e.crashed && !e.upd.closed && |e.upd.buf| == |s.upd.buf| + n
              && e.src[0] == s.src[0].(pending := s.src[0].pending[n..])
    decreases n
  {
    if n == 0 {
      e := s;
    } else {
      var s1, s2, s3 := MessageUp(s, 0);
      ThreeSteps(s, s1, s2, s3, Trips(n - 1));
      e := TripsFill(s3, n - 1);
      assert s.src[0].pending[1..][n - 1..] == s.src[0].pending[n..];
    }
  }

  lemma {:induction false} TakenAndStuck(s: State)
    requires |s.src| == 2 && !s.crashed && !s.upd.closed && |s.upd.buf| == 20 && s.src[0].pending != []
    requires s.src[0] == NEW_SOURCE.(pending := s.src[0].pending, stream := s.src[0].stream)
    ensures Run(s, [Emit(0), Take(0)]).Some? && Run(s, [Emit(0), Take(0), Forward(0)]).None?
  {
    var s1 := Step(s, Emit(0)).value;
    var s2 := Step(s1, Take(0)).value;
    assert Step(s2, Forward(0)).None?;
    assert [Emit(0), Take(0)][1..] == [Take(0)] && [Take(0)][1..] == [];
    assert Run(s1, [Take(0)]) == Run(s2, []) == Some(s2);
    assert [Emit(0), Take(0), Forward(0)][1..] == [Take(0), Forward(0)] && [Take(0), Forward(0)][1..] == [Forward(0)];
    assert Run(s1, [Take(0), Forward(0)]) == Run(s2, [Forward(0)]);
  }

  /** With the consumer asleep the forwarder passes on 20 messages and then waits
      with the next one in its hand. */
  lemma {:induction false} ForwarderWaitsAfterTwenty(r: seq<Float64>)
    requires |r| == 28
    ensures var ls := [Tick(0, r)] + Trips(20);
            && Run(INIT, ls).Some?
            && var e := Run(INIT, ls).value;
               && |e.upd.buf| == 20 && Run(e, [Emit(0), Take(0)]).Some?
               && Run(e, [Emit(0), Take(0), Forward(0)]).None?
  {
    var s := Step(INIT, Tick(0, r)).value;
    TickLength(0, r);
    var e := TripsFill(s, 20);
    assert ([Tick(0, r)] + Trips(20))[1..] == Trips(20);
    TakenAndStuck(e);
  }
}
