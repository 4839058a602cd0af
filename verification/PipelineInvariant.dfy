// The invariant of the collection pipeline, its preservation by every step, and
// what it gives in every reachable state.

module PipelineInvariant {
  import opened Wrappers
  import opened Models
  import opened AbstractStore
  import opened Pipeline

  // ---------- Who sends what ----------

  predicate IsExtra(id: string) {
    id == "TotalMemory" || id == "FreeMemory" || id == "CPUutilization1"
  }

  /** The source whose name list contains a message's name. */
  function Owner(m: Metrics): nat {
    if IsExtra(m.id) then 1 else 0
  }

  predicate GoodMessage(m: Metrics) {
    m.id != "" && if m.id == POLL_COUNT then m == POLL_MESSAGE else m.mtype == GAUGE && m.actual.Flt?
  }

  /** A stream of source `i`: its own names only, and for the first source one
      PollCount in every 29 messages, at a fixed place. */
  ghost predicate GoodStream(i: nat, ms: seq<Metrics>) {
    && (forall p :: 0 <= p < |ms| ==> GoodMessage(ms[p]) && Owner(ms[p]) == i)
    && (i == 0 ==> |ms| % 29 == 0 && forall p :: 0 <= p < |ms| ==> (ms[p].id == POLL_COUNT <==> p % 29 == 27))
  }

  lemma {:induction false} GaugeNamesAreDistinctFromTheRest(n: nat)
    requires n < 27
    ensures !IsExtra(GAUGE_NAMES[n]) && GAUGE_NAMES[n] != POLL_COUNT && GAUGE_NAMES[n] != ""
  {
    var name := GAUGE_NAMES[n];
    assert |name| == |POLL_COUNT| ==> name[0] != 'P';
    assert |name| == |"TotalMemory"| ==> name[0] != 'T';
    assert |name| == |"FreeMemory"| ==> name[0] != 'F';
    assert |name| != |"CPUutilization1"|;
  }

  lemma {:induction false} GaugesAreGood(f: Float64, n: nat)
    requires n < 27
    ensures var m := GaugeMessage(GAUGE_NAMES[n], f); GoodMessage(m) && Owner(m) == 0 && m.id != POLL_COUNT
  {
    GaugeNamesAreDistinctFromTheRest(n);
  }

  lemma {:induction false} MemMessageIsGood(readings: seq<Float64>, p: nat)
    requires |readings| == 28 && p < 29
    ensures |TickMessages(0, readings)| == 29
    ensures var m := TickMessages(0, readings)[p]; GoodMessage(m) && Owner(m) == 0 && (m.id == POLL_COUNT <==> p == 27)
  {
    if p < 27 {
      assert TickMessages(0, readings)[p] == GaugeMessage(GAUGE_NAMES[p], readings[p]);
      GaugesAreGood(readings[p], p);
    }
  }

  lemma {:induction false} TickIsGood(i: nat, readings: seq<Float64>)
    requires i < 2 && |readings| == (if i == 0 then 28 else 3)
    ensures GoodStream(i, TickMessages(i, readings))
    ensures i == 0 ==> |TickMessages(i, readings)| == 29
  {
    var ms := TickMessages(i, readings);
    if i == 0 {
      forall p | 0 <= p < 29
        ensures GoodMessage(ms[p]) && Owner(ms[p]) == 0 && (ms[p].id == POLL_COUNT <==> p == 27)
      {
        MemMessageIsGood(readings, p);
      }
    }
  }

  lemma {:induction false} StreamGrows(i: nat, ms: seq<Metrics>, tick: seq<Metrics>)
    requires GoodStream(i, ms) && GoodStream(i, tick)
    ensures GoodStream(i, ms + tick)
  {
  }

  // ---------- The invariant ----------

  /** The messages of one source among a mixed sequence, in order. */
  function Own(ms: seq<Metrics>, i: nat): seq<Metrics> {
    if ms == [] then []
    else Own(ms[..|ms| - 1], i) + if Owner(ms[|ms| - 1]) == i then [ms[|ms| - 1]] else []
  }

  function InHand(c: Consumer): seq<Metrics> {
    if c.Applying? then [c.m] else []
  }

  function Carried(f: Forwarder): seq<Metrics> {
    if f.Holding? then [f.m] else []
  }

  /** Everything that has entered the update channel, in that order. */
  function Entered(s: State): seq<Metrics> {
    s.applied + InHand(s.cons) + s.upd.buf
  }

  /** What a source has produced but its forwarder has not yet merged. */
  function Upstream(x: Source): seq<Metrics> {
    Carried(x.fwd) + x.ch.buf + x.pending
  }

  /** Source `i` when `own` is what it has had merged so far. */
  ghost predicate SourceInv(x: Source, i: nat, own: seq<Metrics>) {
    && |x.ch.buf| <= CAPACITY
    && x.ch.closed == x.exited
    && (x.exited ==> x.pending == [])
    && (x.fwd.Returned? ==> x.exited && x.ch.buf == [])
    && own + Upstream(x) == x.stream
    && GoodStream(i, x.stream)
  }

  ghost predicate SourcesInv(s: State) {
    && |s.src| == 2
    && SourceInv(s.src[0], 0, Own(Entered(s), 0))
    && SourceInv(s.src[1], 1, Own(Entered(s), 1))
  }

  ghost predicate Inv(s: State) {
    && SourcesInv(s)
    && !s.crashed
    && s.wg == (if s.src[0].fwd.Returned? then 0 else 1) + (if s.src[1].fwd.Returned? then 0 else 1)
    && (s.src[0].exited || s.src[1].exited ==> s.done)
    && s.upd.closed == s.closer
    && (s.closer ==> s.wg == 0)
    && |s.upd.buf| <= CAPACITY
    && (s.cons.Stopped? ==> s.upd.closed && s.upd.buf == [])
    && (forall m :: m in Entered(s) ==> GoodMessage(m))
    && BatchSpec(EMPTY, s.applied) == StepResult(s.mem, Done)
    && KindsByName(s.mem)
  }

  ghost predicate KindsByName(st: MemState) {
    !st.locked && forall k :: k in st.store ==> (st.store[k].Counter? <==> k == POLL_COUNT)
  }

  lemma {:induction false} InitInv()
    ensures Inv(INIT)
  {
    assert Own([], 0) == [] && Own([], 1) == [];
  }

  // ---------- Preservation ----------

  lemma {:induction false} OwnSnoc(ms: seq<Metrics>, m: Metrics, i: nat)
    ensures Own(ms + [m], i) == Own(ms, i) + if Owner(m) == i then [m] else []
  {
    assert (ms + [m])[..|ms|] == ms;
  }

  /** Steps inside the consumer's side move a message along without changing
      what has been merged. */
  lemma {:induction false} EnteredIsStable(s: State, s': State, l: Label)
    requires Step(s, l) == Some(s') && !s'.crashed
    requires !l.Forward?
    ensures Entered(s') == Entered(s)
  {
    match l
    case Receive => assert s.upd.buf == [s.upd.buf[0]] + s.upd.buf[1..];
    case _ =>
  }

  lemma {:induction false} TickKeepsSource(x: Source, done: bool, l: Label, own: seq<Metrics>)
    requires l.Tick? && l.i < 2 && SourceInv(x, l.i, own)
    ensures var r := LocalStep(x, done, l);
            !r.Panic? && (r.To? ==> SourceInv(r.x, l.i, own) && r.x.fwd == x.fwd)
  {
    var r := LocalStep(x, done, l);
    if r.To? {
      var ms := TickMessages(l.i, l.readings);
      TickIsGood(l.i, l.readings);
      StreamGrows(l.i, x.stream, ms);
      assert own + Upstream(r.x) == (own + Upstream(x)) + ms;
    }
  }

  /** Moving a message downstream, or ending a goroutine, keeps the order. */
  lemma {:induction false} MoveKeepsUpstream(x: Source, done: bool, l: Label)
    requires IsLocal(l) && !l.Tick? && LocalStep(x, done, l).To?
    ensures Upstream(LocalStep(x, done, l).x) == Upstream(x) && LocalStep(x, done, l).x.stream == x.stream
  {
    assert l.Emit? ==> x.pending == [x.pending[0]] + x.pending[1..];
    assert l.Take? ==> x.ch.buf == [x.ch.buf[0]] + x.ch.buf[1..];
  }

  /** Inside a source nothing panics, and messages only move downstream. */
  lemma {:induction false} LocalStepKeepsSource(x: Source, done: bool, l: Label, own: seq<Metrics>)
    requires IsLocal(l) && l.i < 2 && SourceInv(x, l.i, own)
    ensures var r := LocalStep(x, done, l);
            && !r.Panic?
            && (r.To? ==> SourceInv(r.x, l.i, own) && (r.x.fwd.Returned? <==> x.fwd.Returned? || l.Finish?))
            && (r.To? && l.Finish? ==> !x.fwd.Returned?)
            && (r.To? && r.x.exited ==> x.exited || done)
  {
    if l.Tick? {
      TickKeepsSource(x, done, l, own);
    } else if LocalStep(x, done, l).To? {
      MoveKeepsUpstream(x, done, l);
    }
  }

  /** The carried message is the next one of its source's stream. */
  lemma {:induction false} CarriedIsOwn(x: Source, i: nat, own: seq<Metrics>)
    requires SourceInv(x, i, own) && x.fwd.Holding?
    ensures GoodMessage(x.fwd.m) && Owner(x.fwd.m) == i
    ensures SourceInv(x.(fwd := Idle), i, own + [x.fwd.m])
  {
    assert x.stream[|own|] == x.fwd.m;
    assert own + Upstream(x) == (own + [x.fwd.m]) + Upstream(x.(fwd := Idle));
  }

  lemma {:induction false} ForwardKeepsSources(s: State, s': State, i: nat)
    requires SourcesInv(s) && ForwardStep(s, i) == Some(s') && !s'.crashed
    ensures SourcesInv(s')
    ensures Entered(s') == Entered(s) + [s.src[i].fwd.m] && GoodMessage(s.src[i].fwd.m)
  {
    var m := s.src[i].fwd.m;
    CarriedIsOwn(s.src[i], i, Own(Entered(s), i));
    assert Entered(s') == Entered(s) + [m];
    OwnSnoc(Entered(s), m, 0);
    OwnSnoc(Entered(s), m, 1);
    assert s'.src[i] == s.src[i].(fwd := Idle) && s'.src[1 - i] == s.src[1 - i];
    assert Own(Entered(s'), i) == Own(Entered(s), i) + [m] && Own(Entered(s'), 1 - i) == Own(Entered(s), 1 - i);
  }

  lemma {:induction false} ForwardKeepsInv(s: State, s': State, i: nat)
    requires Inv(s) && Step(s, Forward(i)) == Some(s')
    ensures Inv(s')
  {
    assert s.wg > 0 && !s.upd.closed;
    ForwardKeepsSources(s, s', i);
  }

  /** On good messages the consumer neither errs nor panics, and does what one
      element of a batch does. */
  lemma {:induction false} ConsumeIsElement(st: MemState, m: Metrics)
    requires KindsByName(st) && GoodMessage(m)
    ensures ConsumeSpec(st, m) == ElementSpec(st, m)
    ensures ConsumeSpec(st, m).out.Done? && KindsByName(ConsumeSpec(st, m).st)
  {
  }

  /** A message of neither type: dropped under a new name, and applied like any
      other under a known one. */
  lemma {:induction false} UntypedMessage(st: MemState, m: Metrics)
    requires !st.locked && m.mtype != COUNTER && m.mtype != GAUGE
    ensures ConsumeSpec(st, m) ==
              if m.id in st.store then ConsumeSpec(st, m.(mtype := st.store[m.id].Kind())) else StepResult(st, Done)
  {
  }

  lemma {:induction false} ApplyKeepsInv(s: State, s': State)
    requires Inv(s) && Step(s, Apply) == Some(s')
    ensures Inv(s')
  {
    var m := s.cons.m;
    assert Entered(s)[|s.applied|] == m && m in Entered(s);
    ConsumeIsElement(s.mem, m);
    BatchAppend(EMPTY, s.applied, [m]);
    assert BatchSpec(s.mem, [m]) == BatchSpec(ElementSpec(s.mem, m).st, []);
    EnteredIsStable(s, s', Apply);
  }

  lemma {:induction false} LocalStepKeepsInv(s: State, s': State, l: Label)
    requires Inv(s) && IsLocal(l) && Step(s, l) == Some(s')
    ensures Inv(s')
  {
    LocalStepKeepsSource(s.src[l.i], s.done, l, Own(Entered(s), l.i));
    assert Entered(s') == Entered(s);
  }

  lemma {:induction false} StepKeepsInv(s: State, s': State, l: Label)
    requires Inv(s) && Step(s, l) == Some(s')
    ensures Inv(s')
  {
    if IsLocal(l) {
      LocalStepKeepsInv(s, s', l);
    } else if l.Forward? {
      ForwardKeepsInv(s, s', l.i);
    } else if l.Apply? {
      ApplyKeepsInv(s, s');
    } else {
      EnteredIsStable(s, s', l);
    }
  }

  lemma {:induction false} RunKeepsInv(s: State, ls: seq<Label>)
    requires Inv(s) && Run(s, ls).Some?
    ensures Inv(Run(s, ls).value)
    decreases ls
  {
    if ls != [] {
      StepKeepsInv(s, Step(s, ls[0]).value, ls[0]);
      RunKeepsInv(Step(s, ls[0]).value, ls[1..]);
    }
  }
}
