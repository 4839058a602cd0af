// Batches under concurrency: MemStorage.BatchUpdate takes the mutex once per
// storage call, so the elements of concurrent batches and requests interleave.

module Clients {
  import opened Wrappers
  import opened Int64
  import opened Models
  import opened AbstractStore
  import R = Requests

  /** `owner[i]` is the client of element `i`. A client runs its elements in this
      order and stops at the first that does not succeed; a single request is a
      client with one element. */
  function Next(owner: seq<nat>, phases: seq<R.Phase>, c: nat): (n: nat)
    requires |owner| == |phases|
    ensures n <= |owner|
    ensures n < |owner| ==> owner[n] == c && phases[n] != R.Ended(Done)
    ensures forall i :: 0 <= i < n && owner[i] == c ==> phases[i] == R.Ended(Done)
  {
    if owner == [] then 0
    else if owner[0] == c && phases[0] != R.Ended(Done) then 0
    else 1 + Next(owner[1..], phases[1..], c)
  }

  /** The next storage call of client `c`. */
  function Step(reqs: seq<R.Request>, owner: seq<nat>, s: R.State, c: nat): Option<R.State>
    requires |s.phases| == |reqs| == |owner|
  {
    R.Step(reqs, s, Next(owner, s.phases, c))
  }

  function Run(reqs: seq<R.Request>, owner: seq<nat>, s: R.State, schedule: seq<nat>): Option<R.State>
    requires |s.phases| == |reqs| == |owner|
    decreases schedule
  {
    if schedule == [] then Some(s)
    else
      match Step(reqs, owner, s, schedule[0])
      case None => None
      case Some(s') => Run(reqs, owner, s', schedule[1..])
  }

  /** No client can go on. */
  ghost predicate Quiet(reqs: seq<R.Request>, owner: seq<nat>, s: R.State)
    requires |s.phases| == |reqs| == |owner|
  {
    forall c :: Step(reqs, owner, s, c).None?
  }

  /** Clients only restrict the order in which elements move. */
  lemma {:induction false} ClientsAreRequests(reqs: seq<R.Request>, owner: seq<nat>, s: R.State, schedule: seq<nat>)
    returns (plain: seq<nat>)
    requires |s.phases| == |reqs| == |owner| && Run(reqs, owner, s, schedule).Some?
    ensures R.Run(reqs, s, plain) == Run(reqs, owner, s, schedule)
    decreases schedule
  {
    if schedule == [] {
      plain := [];
    } else {
      var i := Next(owner, s.phases, schedule[0]);
      var s' := R.Step(reqs, s, i).value;
      var rest := ClientsAreRequests(reqs, owner, s', schedule[1..]);
      plain := [i] + rest;
      assert plain[1..] == rest;
    }
  }

  lemma {:induction false} QuietIsComplete(reqs: seq<R.Request>, owner: seq<nat>, s0: Store, s: R.State,
                                           isCounter: string -> bool)
    requires R.Inv(reqs, s0, s, isCounter) && |owner| == |reqs| && Quiet(reqs, owner, s)
    ensures R.Complete(s)
  {
    forall i | 0 <= i < |s.phases|
      ensures s.phases[i].Ended?
    {
      var n := Next(owner, s.phases, owner[i]);
      assert Step(reqs, owner, s, owner[i]).None?;
    }
  }

  /** No lost updates under concurrent batches: whatever the interleaving, when no
      client can go on every element has been applied, a counter that was there
      holds its start plus all deltas of all clients, and a gauge the last value
      written to it. */
  lemma {:induction false} BatchesKeepUpdates(reqs: seq<R.Request>, owner: seq<nat>, s0: Store, schedule: seq<nat>,
                                              isCounter: string -> bool, k: string)
    requires R.KindConsistent(reqs, s0, isCounter) && k in s0 && |owner| == |reqs|
    requires Run(reqs, owner, R.Init(reqs, s0), schedule).Some?
    requires Ends(reqs, owner, s0, schedule)
    ensures var s := Run(reqs, owner, R.Init(reqs, s0), schedule).value;
            && (forall i :: 0 <= i < |s.phases| ==> s.phases[i] == R.Ended(Done))
            && R.InRangeLog(reqs, s.log)
            && match s0[k]
               case Counter(c) => Lookup(s.mem.store, k) == Some(Counter(Wrap(c + R.Total(reqs, k))))
               case Gauge(g) =>
                 match R.LastWritten(reqs, s.log, k)
                 case Some(v) => v.Flt? && Lookup(s.mem.store, k) == Some(Gauge(v.f))
                 case None => Lookup(s.mem.store, k) == Some(Gauge(g))
  {
    var plain := ClientsAreRequests(reqs, owner, R.Init(reqs, s0), schedule);
    R.InitInv(reqs, s0, isCounter);
    R.RunKeepsInv(reqs, s0, R.Init(reqs, s0), plain, isCounter);
    QuietIsComplete(reqs, owner, s0, R.Run(reqs, R.Init(reqs, s0), plain).value, isCounter);
    R.NoLostUpdates(reqs, s0, plain, isCounter, k);
  }

  ghost predicate Ends(reqs: seq<R.Request>, owner: seq<nat>, s0: Store, schedule: seq<nat>)
    requires |owner| == |reqs| && Run(reqs, owner, R.Init(reqs, s0), schedule).Some?
  {
    var s := Run(reqs, owner, R.Init(reqs, s0), schedule).value;
    |s.phases| == |reqs| && Quiet(reqs, owner, s)
  }

  // ---------- A client stops at its first failure ----------

  /** No element has moved before all earlier ones of its client have succeeded. */
  ghost predicate InOrder(owner: seq<nat>, phases: seq<R.Phase>)
    requires |owner| == |phases|
  {
    forall i, j :: 0 <= i < j < |owner| && owner[i] == owner[j] && !phases[j].Start? ==> phases[i] == R.Ended(Done)
  }

  lemma {:induction false} StepKeepsOrder(reqs: seq<R.Request>, owner: seq<nat>, s: R.State, s': R.State, c: nat)
    requires |s.phases| == |reqs| == |owner| && InOrder(owner, s.phases) && Step(reqs, owner, s, c) == Some(s')
    ensures |s'.phases| == |reqs| && InOrder(owner, s'.phases)
  {
    var n := Next(owner, s.phases, c);
    assert s'.phases == s.phases[n := s'.phases[n]];
    assert s.phases[n].Start? || s.phases[n].Got?;
  }

  lemma {:induction false} RunKeepsOrder(reqs: seq<R.Request>, owner: seq<nat>, s: R.State, schedule: seq<nat>)
    requires |s.phases| == |reqs| == |owner| && InOrder(owner, s.phases) && Run(reqs, owner, s, schedule).Some?
    ensures var e := Run(reqs, owner, s, schedule).value; |e.phases| == |reqs| && InOrder(owner, e.phases)
    decreases schedule
  {
    if schedule != [] {
      var s' := Step(reqs, owner, s, schedule[0]).value;
      StepKeepsOrder(reqs, owner, s, s', schedule[0]);
      RunKeepsOrder(reqs, owner, s', schedule[1..]);
    }
  }

  /** In every run, whatever the kinds, at most the last element of a client that
      has moved has not succeeded; if it has failed, the client never moves again. */
  lemma {:induction false} ClientsStopAtFailure(reqs: seq<R.Request>, owner: seq<nat>, s0: Store, schedule: seq<nat>)
    requires |owner| == |reqs| && Run(reqs, owner, R.Init(reqs, s0), schedule).Some?
    ensures var e := Run(reqs, owner, R.Init(reqs, s0), schedule).value;
            && |e.phases| == |reqs| && InOrder(owner, e.phases)
            && forall n :: 0 <= n < |owner| && e.phases[n].Ended? && e.phases[n] != R.Ended(Done) ==>
                 Step(reqs, owner, e, owner[n]).None?
  {
    var s := R.Init(reqs, s0);
    RunKeepsOrder(reqs, owner, s, schedule);
    var e := Run(reqs, owner, s, schedule).value;
    forall n | 0 <= n < |owner| && e.phases[n].Ended? && e.phases[n] != R.Ended(Done)
      ensures Step(reqs, owner, e, owner[n]).None?
    {
      var m := Next(owner, e.phases, owner[n]);
      assert m == n;
    }
  }

  // ---------- One client alone ----------

  /** The elements of a batch as requests: its Insert goes by the type of the
      value, whatever type the element declares. */
  function Elements(xs: seq<Metrics>): seq<R.Request> {
    if xs == [] then []
    else [R.Request(xs[0].id, if IsNumber(xs[0].actual) then Fresh(xs[0].actual).Kind() else "", xs[0].actual)]
         + Elements(xs[1..])
  }

  lemma {:induction false} ElementsAt(xs: seq<Metrics>, n: nat)
    requires n < |xs|
    ensures |Elements(xs)| == |xs| && Elements(xs)[n].id == xs[n].id && Elements(xs)[n].v == xs[n].actual
    ensures IsNumber(xs[n].actual) ==> Elements(xs)[n].mtype == Fresh(xs[n].actual).Kind()
  {
    if n > 0 {
      ElementsAt(xs[1..], n - 1);
    } else {
      ElementsLength(xs);
    }
  }

  lemma {:induction false} ElementsLength(xs: seq<Metrics>)
    ensures |Elements(xs)| == |xs|
  {
    if xs != [] {
      ElementsLength(xs[1..]);
    }
  }

  /** The two storage calls of an element that succeeds are one iteration of the
      batch loop. */
  lemma {:induction false} TwoCallsAreElement(reqs: seq<R.Request>, s: R.State, i: nat, m: Metrics)
    requires |s.phases| == |reqs| && i < |reqs| && s.phases[i].Start? && !s.mem.locked
    requires reqs[i].id == m.id && reqs[i].v == m.actual && ElementSpec(s.mem, m).out.Done?
    requires IsNumber(m.actual) ==> reqs[i].mtype == Fresh(m.actual).Kind()
    ensures R.Step(reqs, s, i).Some?
    ensures var mid := R.Step(reqs, s, i).value;
            && mid.phases[i].Got? && |mid.phases| == |reqs|
            && R.Step(reqs, mid, i).Some?
            && R.Step(reqs, mid, i).value.mem == ElementSpec(s.mem, m).st
            && R.Step(reqs, mid, i).value.phases == s.phases[i := R.Ended(Done)]
  {
    var mid := R.Step(reqs, s, i).value;
    assert mid.phases == s.phases[i := mid.phases[i]];
    assert mid.phases[i := R.Ended(Done)] == s.phases[i := R.Ended(Done)];
  }

  /** A batch that succeeds is what its client does when nobody interrupts it. */
  lemma {:induction false} AloneIsBatch(xs: seq<Metrics>, owner: seq<nat>, s: R.State, n: nat)
    returns (schedule: seq<nat>)
    requires |Elements(xs)| == |xs| == |owner| == |s.phases| && n <= |xs|
    requires forall i :: 0 <= i < |owner| ==> owner[i] == 0
    requires forall i :: 0 <= i < |xs| ==> if i < n then s.phases[i] == R.Ended(Done) else s.phases[i].Start?
    requires !s.mem.locked && BatchSpec(s.mem, xs[n..]).out.Done?
    ensures Run(Elements(xs), owner, s, schedule).Some?
    ensures Run(Elements(xs), owner, s, schedule).value.mem == BatchSpec(s.mem, xs[n..]).st
    decreases |xs| - n
  {
    if n == |xs| {
      schedule := [];
      assert xs[n..] == [];
    } else {
      var reqs, m := Elements(xs), xs[n];
      assert xs[n..][0] == m && xs[n..][1..] == xs[n + 1..];
      ElementsAt(xs, n);
      TwoCallsAreElement(reqs, s, n, m);
      var mid := R.Step(reqs, s, n).value;
      var e := R.Step(reqs, mid, n).value;
      assert Next(owner, s.phases, 0) == n && mid.phases == s.phases[n := mid.phases[n]];
      assert Next(owner, mid.phases, 0) == n;
      ElementMeaning(s.mem, m);
      var rest := AloneIsBatch(xs, owner, e, n + 1);
      schedule := [0] + ([0] + rest);
      assert schedule[1..] == [0] + rest && ([0] + rest)[1..] == rest;
      assert Run(reqs, owner, mid, [0] + rest) == Run(reqs, owner, e, rest);
    }
  }

  // ---------- Batches are not atomic ----------

  /** One element of client `c`, whole. */
  lemma {:induction false} TwoSteps(reqs: seq<R.Request>, owner: seq<nat>, s: R.State, c: nat, n: nat,
                                    schedule: seq<nat>)
    returns (e: R.State)
    requires |s.phases| == |reqs| == |owner| && n < |reqs| && !s.mem.locked
    requires owner[n] == c && s.phases[n].Start?
    requires forall i :: 0 <= i < n && owner[i] == c ==> s.phases[i] == R.Ended(Done)
    requires |schedule| >= 2 && schedule[0] == schedule[1] == c
    requires NewMetric(reqs[n].mtype, reqs[n].v).Some?
    requires reqs[n].id in s.mem.store ==> SameKind(s.mem.store[reqs[n].id], reqs[n].v)
    ensures |e.phases| == |reqs| && Run(reqs, owner, s, schedule) == Run(reqs, owner, e, schedule[2..])
    ensures e.phases == s.phases[n := R.Ended(Done)]
    ensures var q := reqs[n];
            e.mem == MemState(s.mem.store[q.id := if q.id in s.mem.store then UpdateRule(s.mem.store[q.id], q.v).value
                                                  else Fresh(q.v)], false)
  {
    var mid := R.Step(reqs, s, n).value;
    assert mid.phases == s.phases[n := mid.phases[n]] && Next(owner, mid.phases, c) == n;
    e := R.Step(reqs, mid, n).value;
    assert schedule[1..][1..] == schedule[2..];
    assert Run(reqs, owner, mid, schedule[1..]) == Run(reqs, owner, e, schedule[2..]);
    assert mid.phases[n := R.Ended(Done)] == s.phases[n := R.Ended(Done)];
  }

  const MIX_OWNERS: seq<nat> := [0, 0, 1, 1]
  const MIX_SCHEDULE: seq<nat> := [0, 0, 1, 1, 1, 1, 0, 0]

  function MixRequests(x: Float64, y: Float64, x': Float64, y': Float64): seq<R.Request> {
    [R.Request("a", GAUGE, Flt(x)), R.Request("b", GAUGE, Flt(y)),
     R.Request("a", GAUGE, Flt(x')), R.Request("b", GAUGE, Flt(y'))]
  }

  /** The first client's first element, */
  lemma {:induction false} MixStart(x: Float64, y: Float64, x': Float64, y': Float64, schedule: seq<nat>)
    returns (s: R.State)
    requires |schedule| >= 2 && schedule[0] == schedule[1] == 0
    ensures var reqs := MixRequests(x, y, x', y');
            && |s.phases| == 4
            && Run(reqs, MIX_OWNERS, R.Init(reqs, map[]), schedule) == Run(reqs, MIX_OWNERS, s, schedule[2..])
            && s.phases == [R.Ended(Done), R.Start, R.Start, R.Start]
            && !s.mem.locked && s.mem.store == map["a" := Gauge(x)]
  {
    var reqs, s0 := MixRequests(x, y, x', y'), R.Init(MixRequests(x, y, x', y'), map[]);
    assert s0.phases == [R.Start, R.Start, R.Start, R.Start];
    s := TwoSteps(reqs, MIX_OWNERS, s0, 0, 0, schedule);
  }

  /** ... then the second client whole. */
  lemma {:induction false} MixFirst(x: Float64, y: Float64, x': Float64, y': Float64, schedule: seq<nat>)
    returns (s: R.State)
    requires |schedule| == 8 && schedule[0] == schedule[1] == 0
    requires schedule[2] == schedule[3] == schedule[4] == schedule[5] == 1
    ensures var reqs := MixRequests(x, y, x', y');
            && |s.phases| == 4
            && Run(reqs, MIX_OWNERS, R.Init(reqs, map[]), schedule) == Run(reqs, MIX_OWNERS, s, schedule[6..])
            && s.phases == [R.Ended(Done), R.Start, R.Ended(Done), R.Ended(Done)]
            && !s.mem.locked && s.mem.store == map["a" := Gauge(x'), "b" := Gauge(y')]
  {
    var s2 := MixStart(x, y, x', y', schedule);
    var rest := schedule[2..];
    s := MixSecond(x, y, x', y', s2, rest);
    assert rest[4..] == schedule[6..];
  }

  lemma {:induction false} MixSecond(x: Float64, y: Float64, x': Float64, y': Float64, s: R.State, schedule: seq<nat>)
    returns (e: R.State)
    requires |schedule| == 6 && schedule[0] == schedule[1] == schedule[2] == schedule[3] == 1
    requires s.phases == [R.Ended(Done), R.Start, R.Start, R.Start]
    requires !s.mem.locked && s.mem.store == map["a" := Gauge(x)]
    ensures var reqs := MixRequests(x, y, x', y');
            && |e.phases| == 4 && Run(reqs, MIX_OWNERS, s, schedule) == Run(reqs, MIX_OWNERS, e, schedule[4..])
            && e.phases == [R.Ended(Done), R.Start, R.Ended(Done), R.Ended(Done)]
            && !e.mem.locked && e.mem.store == map["a" := Gauge(x'), "b" := Gauge(y')]
  {
    var reqs := MixRequests(x, y, x', y');
    var s4 := TwoSteps(reqs, MIX_OWNERS, s, 1, 2, schedule);
    assert s4.phases == [R.Ended(Done), R.Start, R.Ended(Done), R.Start] && s4.mem.store == map["a" := Gauge(x')];
    e := TwoSteps(reqs, MIX_OWNERS, s4, 1, 3, schedule[2..]);
    assert schedule[2..][2..] == schedule[4..];
  }

  /** The first client's second element. */
  lemma {:induction false} MixLast(x: Float64, y: Float64, x': Float64, y': Float64, s: R.State, schedule: seq<nat>)
    returns (e: R.State)
    requires |schedule| == 2 && schedule[0] == schedule[1] == 0
    requires s.phases == [R.Ended(Done), R.Start, R.Ended(Done), R.Ended(Done)]
    requires !s.mem.locked && s.mem.store == map["a" := Gauge(x'), "b" := Gauge(y')]
    ensures Run(MixRequests(x, y, x', y'), MIX_OWNERS, s, schedule) == Some(e) && R.Complete(e)
    ensures e.mem == MemState(s.mem.store["b" := Gauge(y)], false)
  {
    e := TwoSteps(MixRequests(x, y, x', y'), MIX_OWNERS, s, 0, 1, schedule);
    assert schedule[2..] == [];
  }

  /** Two batches that both set two gauges can leave one value of each: a result
      of neither order. */
  lemma {:induction false} BatchesMix(x: Float64, y: Float64, x': Float64, y': Float64)
    ensures var reqs := MixRequests(x, y, x', y');
            var end := Run(reqs, MIX_OWNERS, R.Init(reqs, map[]), MIX_SCHEDULE);
            && end.Some? && R.Complete(end.value) && !end.value.mem.locked
            && Lookup(end.value.mem.store, "a") == Some(Gauge(x')) && Lookup(end.value.mem.store, "b") == Some(Gauge(y))
  {
    var s := MixFirst(x, y, x', y', MIX_SCHEDULE);
    var rest := MIX_SCHEDULE[6..];
    assert |rest| == 2 && rest[0] == MIX_SCHEDULE[6] && rest[1] == MIX_SCHEDULE[7];
    var e := MixLast(x, y, x', y', s, rest);
  }
}
