// internal/agent/send.go, SendMetrics and sendWorker: one producer that walks a
// snapshot of the store and a pool of workers behind a bounded channel, as a
// small-step machine.

module SendWorkers {
  import opened Wrappers
  import opened Models

  const CAPACITY: nat := 20

  /** At the select, inside the loop over the snapshot, blocked on the channel,
      or returned. */
  datatype Producer = Selecting | Looping(rest: seq<Metrics>) | Offering(m: Metrics, rest: seq<Metrics>) | Exited

  datatype Worker = Idle | Sending(m: Metrics) | Ended

  /** `taken` and `finished` are history variables: messages received by some
      worker, and messages it has handled, with or without reaching the server. */
  datatype State = State(done: bool, prod: Producer, buf: seq<Metrics>, closed: bool, workers: seq<Worker>,
                         queued: seq<Metrics>, taken: seq<Metrics>, finished: multiset<Metrics>, crashed: bool)

  function Init(rateLimit: nat): State {
    State(false, Selecting, [], false, seq(rateLimit, _ => Idle), [], [], multiset{}, false)
  }

  /** Check is the inner select: it sees the cancellation or goes on to offer. */
  datatype Label =
    | Cancel
    | Tick(items: seq<Metrics>)
    | Quit
    | Check
    | Put
    | Receive(w: nat)
    | Handled(w: nat)
    | End(w: nat)

  /** Return from SendMetrics: the deferred close. */
  function Return(s: State): State {
    if s.closed then s.(crashed := true) else s.(prod := Exited, closed := true)
  }

  function Step(s: State, l: Label): Option<State> {
    if s.crashed then None
    else match l
      case Cancel => if s.done then None else Some(s.(done := true))
      case Tick(items) => if s.prod.Selecting? then Some(s.(prod := Looping(items))) else None
      case Quit => if s.prod.Selecting? && s.done then Some(Return(s)) else None
      case Check =>
        if !s.prod.Looping? then None
        else if s.prod.rest == [] then Some(s.(prod := Selecting))
        else if s.done then Some(Return(s))
        else Some(s.(prod := Offering(s.prod.rest[0], s.prod.rest[1..])))
      case Put =>
        if !s.prod.Offering? then None
        else if s.closed then Some(s.(crashed := true))
        else if |s.buf| >= CAPACITY then None
        else Some(s.(prod := Looping(s.prod.rest), buf := s.buf + [s.prod.m], queued := s.queued + [s.prod.m]))
      case Receive(w) =>
        if w >= |s.workers| || !s.workers[w].Idle? || s.buf == [] then None
        else Some(s.(workers := s.workers[w := Sending(s.buf[0])], buf := s.buf[1..], taken := s.taken + [s.buf[0]]))
      case Handled(w) =>
        if w >= |s.workers| || !s.workers[w].Sending? then None
        else Some(s.(workers := s.workers[w := Idle], finished := s.finished + multiset{s.workers[w].m}))
      case End(w) =>
        if w >= |s.workers| || !s.workers[w].Idle? || s.buf != [] || !s.closed then None
        else Some(s.(workers := s.workers[w := Ended]))
  }

  function Run(s: State, ls: seq<Label>): Option<State>
    decreases ls
  {
    if ls == [] then Some(s)
    else
      match Step(s, ls[0])
      case None => None
      case Some(s') => Run(s', ls[1..])
  }

  // ---------- Invariant ----------

  function Holds(w: Worker, m: Metrics): nat {
    if w == Sending(m) then 1 else 0
  }

  /** How many workers are sending `m` at this moment. */
  function InFlight(ws: seq<Worker>, m: Metrics): nat {
    if ws == [] then 0 else Holds(ws[0], m) + InFlight(ws[1..], m)
  }

  function Busy(ws: seq<Worker>): nat {
    if ws == [] then 0 else (if ws[0].Sending? then 1 else 0) + Busy(ws[1..])
  }

  /** Every received message is with a worker or finished, as often as it was
      received. */
  ghost predicate Counted(s: State) {
    forall m :: multiset(s.taken)[m] == InFlight(s.workers, m) + s.finished[m]
  }

  ghost predicate Inv(s: State) {
    && !s.crashed
    && (s.closed <==> s.prod.Exited?)
    && |s.buf| <= CAPACITY
    && s.queued == s.taken + s.buf
    && Counted(s)
    && (forall w :: 0 <= w < |s.workers| && s.workers[w].Ended? ==> s.closed && s.buf == [])
  }

  lemma {:induction false} InFlightUpdate(ws: seq<Worker>, w: nat, x: Worker, m: Metrics)
    requires w < |ws|
    ensures InFlight(ws[w := x], m) + Holds(ws[w], m) == InFlight(ws, m) + Holds(x, m)
  {
    if w == 0 {
      assert ws[w := x][1..] == ws[1..];
    } else {
      assert ws[w := x][1..] == ws[1..][w - 1 := x];
      InFlightUpdate(ws[1..], w - 1, x, m);
    }
  }

  lemma {:induction false} IdleFlight(ws: seq<Worker>, m: Metrics)
    requires forall w :: 0 <= w < |ws| ==> !ws[w].Sending?
    ensures InFlight(ws, m) == 0
  {
    if ws != [] {
      IdleFlight(ws[1..], m);
    }
  }

  lemma {:induction false} BusyIsBounded(ws: seq<Worker>)
    ensures Busy(ws) <= |ws|
  {
    if ws != [] {
      BusyIsBounded(ws[1..]);
    }
  }

  lemma {:induction false} InitInv(rateLimit: nat)
    ensures Inv(Init(rateLimit))
  {
    forall m {
      IdleFlight(Init(rateLimit).workers, m);
    }
  }

  /** A message moves from the channel to an idle worker, or from a worker to
      the finished ones. */
  lemma {:induction false} MoveKeepsCount(s: State, s': State, l: Label, m: Metrics)
    requires (l.Receive? || l.Handled? || l.End?) && Step(s, l) == Some(s')
    requires multiset(s.taken)[m] == InFlight(s.workers, m) + s.finished[m]
    ensures multiset(s'.taken)[m] == InFlight(s'.workers, m) + s'.finished[m]
  {
    InFlightUpdate(s.workers, l.w, s'.workers[l.w], m);
    if l.Receive? {
      assert multiset(s.taken + [s.buf[0]]) == multiset(s.taken) + multiset{s.buf[0]};
    }
  }

  lemma {:induction false} MoveKeepsQueue(s: State, s': State, l: Label)
    requires (l.Receive? || l.Handled? || l.End?) && Step(s, l) == Some(s')
    requires s.queued == s.taken + s.buf
    requires forall w :: 0 <= w < |s.workers| && s.workers[w].Ended? ==> s.closed && s.buf == []
    ensures s'.queued == s'.taken + s'.buf && |s'.buf| <= |s.buf|
    ensures forall w :: 0 <= w < |s'.workers| && s'.workers[w].Ended? ==> s'.closed && s'.buf == []
  {
    if l.Receive? {
      assert s.buf == [s.buf[0]] + s.buf[1..];
    }
    forall w | 0 <= w < |s'.workers| && s'.workers[w].Ended?
      ensures s'.closed && s'.buf == []
    {
      assert w != l.w ==> s.workers[w].Ended?;
    }
  }

  lemma {:induction false} WorkerKeepsInv(s: State, s': State, l: Label)
    requires Inv(s) && (l.Receive? || l.Handled? || l.End?) && Step(s, l) == Some(s')
    ensures Inv(s') && |s'.workers| == |s.workers|
  {
    MoveKeepsQueue(s, s', l);
    forall m
      ensures multiset(s'.taken)[m] == InFlight(s'.workers, m) + s'.finished[m]
    {
      MoveKeepsCount(s, s', l, m);
    }
  }

  lemma {:induction false} PutKeepsInv(s: State, s': State)
    requires Inv(s) && Step(s, Put) == Some(s')
    ensures Inv(s') && s'.workers == s.workers
  {
    assert !s.closed;
    assert s'.queued == s'.taken + s'.buf;
    assert Counted(s');
  }

  lemma {:induction false} StepKeepsInv(s: State, s': State, l: Label)
    requires Inv(s) && Step(s, l) == Some(s')
    ensures Inv(s') && |s'.workers| == |s.workers|
  {
    if l.Receive? || l.Handled? || l.End? {
      WorkerKeepsInv(s, s', l);
    } else if l.Put? {
      PutKeepsInv(s, s');
    } else {
      assert s'.workers == s.workers && Counted(s');
    }
  }

  lemma {:induction false} RunKeepsInv(s: State, ls: seq<Label>)
    requires Inv(s) && Run(s, ls).Some?
    ensures Inv(Run(s, ls).value) && |Run(s, ls).value.workers| == |s.workers|
    decreases ls
  {
    if ls != [] {
      StepKeepsInv(s, Step(s, ls[0]).value, ls[0]);
      RunKeepsInv(Step(s, ls[0]).value, ls[1..]);
    }
  }

  /** In every reachable state: nobody panics, so nothing is sent on or closed
      after the close; at most rateLimit messages are being sent; the workers
      receive in queue order; and every queued message is in exactly one place:
      in the channel, with one worker, or finished. */
  lemma {:induction false} PoolConserves(rateLimit: nat, ls: seq<Label>)
    requires Run(Init(rateLimit), ls).Some?
    ensures var s := Run(Init(rateLimit), ls).value;
            && !s.crashed
            && |s.workers| == rateLimit && Busy(s.workers) <= rateLimit
            && s.taken <= s.queued
            && forall m :: multiset(s.queued)[m] == multiset(s.buf)[m] + InFlight(s.workers, m) + s.finished[m]
  {
    InitInv(rateLimit);
    RunKeepsInv(Init(rateLimit), ls);
    BusyIsBounded(Run(Init(rateLimit), ls).value.workers);
  }

  // ---------- From the snapshots to the queue ----------

  /** The items of the ticks of a run, in order. */
  function TickItems(ls: seq<Label>): seq<Metrics> {
    if ls == [] then [] else (if ls[0].Tick? then ls[0].items else []) + TickItems(ls[1..])
  }

  /** What the producer has still to queue of its snapshot. */
  function Unqueued(p: Producer): seq<Metrics> {
    match p
    case Looping(rest) => rest
    case Offering(m, rest) => [m] + rest
    case _ => []
  }

  /** From `s` to `e`, with `items` brought by ticks in between: what is queued is
      a front of all there was and came, and all but what the producer still holds
      unless it has returned. */
  ghost predicate Queues(s: State, e: State, items: seq<Metrics>) {
    && s.queued <= e.queued <= s.queued + Unqueued(s.prod) + items
    && (!e.prod.Exited? ==> e.queued + Unqueued(e.prod) == s.queued + Unqueued(s.prod) + items)
    && (s.prod.Exited? ==> e.prod.Exited? && items == [])
  }

  lemma {:induction false} StepQueues(s: State, s': State, l: Label)
    requires Step(s, l) == Some(s')
    ensures Queues(s, s', if l.Tick? then l.items else [])
    ensures (s.done ==> s'.done) && (s'.prod.Exited? ==> s.prod.Exited? || s.done)
  {
  }

  lemma {:induction false} QueuesCompose(s: State, mid: State, e: State, items: seq<Metrics>, more: seq<Metrics>)
    requires Queues(s, mid, items) && Queues(mid, e, more)
    ensures Queues(s, e, items + more)
  {
    assert s.queued + Unqueued(s.prod) + (items + more) == (s.queued + Unqueued(s.prod) + items) + more;
  }

  lemma {:induction false} RunQueues(s: State, ls: seq<Label>)
    requires Run(s, ls).Some?
    ensures Queues(s, Run(s, ls).value, TickItems(ls))
    ensures Run(s, ls).value.prod.Exited? ==> s.prod.Exited? || Run(s, ls).value.done
    ensures s.done ==> Run(s, ls).value.done
    decreases ls
  {
    if ls != [] {
      var s' := Step(s, ls[0]).value;
      StepQueues(s, s', ls[0]);
      RunQueues(s', ls[1..]);
      QueuesCompose(s, s', Run(s, ls).value, if ls[0].Tick? then ls[0].items else [], TickItems(ls[1..]));
    }
  }

  lemma {:induction false} QueuesFromNothing(s: State, e: State, items: seq<Metrics>)
    requires Queues(s, e, items) && s.queued == [] && Unqueued(s.prod) == []
    ensures e.queued <= items && (!e.prod.Exited? ==> e.queued + Unqueued(e.prod) == items)
  {
    assert s.queued + Unqueued(s.prod) + items == items;
  }

  /** In every reachable state the queue is a front of what the ticks of the run
      have brought, in their order; before cancellation it is all of it, but for
      the message on offer and the rest of the loop. */
  lemma {:induction false} QueueIsTicks(rateLimit: nat, ls: seq<Label>)
    requires Run(Init(rateLimit), ls).Some?
    ensures var s := Run(Init(rateLimit), ls).value;
            && s.queued <= TickItems(ls)
            && (!s.done ==> s.queued + Unqueued(s.prod) == TickItems(ls))
  {
    RunQueues(Init(rateLimit), ls);
    QueuesFromNothing(Init(rateLimit), Run(Init(rateLimit), ls).value, TickItems(ls));
  }

  /** If the producer was at its select when it was cancelled, everything that had
      been brought by then is queued, and nothing that comes later. */
  lemma {:induction false} CancelAtSelect(rateLimit: nat, early: seq<Label>, late: seq<Label>)
    requires Run(Init(rateLimit), early + [Cancel] + late).Some?
    requires Run(Init(rateLimit), early).Some? && Run(Init(rateLimit), early).value.prod.Selecting?
    ensures Run(Init(rateLimit), early + [Cancel] + late).value.queued == TickItems(early)
  {
    var s := Run(Init(rateLimit), early).value;
    RunQueues(Init(rateLimit), early);
    QueuesFromNothing(Init(rateLimit), s, TickItems(early));
    RunAppend(Init(rateLimit), early, [Cancel] + late);
    assert early + [Cancel] + late == early + ([Cancel] + late) && ([Cancel] + late)[1..] == late;
    var s' := Step(s, Cancel).value;
    RunQueues(s', late);
    CancelStopsQueueing(s', late);
  }

  // ---------- Cancellation ----------

  /** After cancellation the producer queues no more than the one message it was
      already offering, whatever ticks still come. */
  lemma {:induction false} CancelStopsQueueing(s: State, ls: seq<Label>)
    requires s.done && Run(s, ls).Some?
    ensures |Run(s, ls).value.queued| <= |s.queued| + if s.prod.Offering? then 1 else 0
    decreases ls
  {
    if ls != [] {
      CancelStopsQueueing(Step(s, ls[0]).value, ls[1..]);
    }
  }

  // ---------- Drain and termination ----------

  ghost predicate Final(s: State) {
    s.prod.Exited? && s.buf == [] && forall w :: 0 <= w < |s.workers| ==> s.workers[w].Ended?
  }

  function ProducerMeasure(p: Producer): nat {
    match p
    case Exited => 0
    case Selecting => 1
    case Looping(rest) => 2 + 6 * |rest|
    case Offering(_, rest) => 7 + 6 * |rest|
  }

  function WorkersMeasure(ws: seq<Worker>): nat {
    if ws == [] then 0
    else (match ws[0] case Idle => 1 case Sending(_) => 3 case Ended => 0) + WorkersMeasure(ws[1..])
  }

  function Measure(s: State): nat {
    ProducerMeasure(s.prod) + 4 * |s.buf| + WorkersMeasure(s.workers) + if s.done then 0 else 1
  }

  lemma {:induction false} WorkersMeasureUpdate(ws: seq<Worker>, w: nat, x: Worker)
    requires w < |ws|
    ensures WorkersMeasure(ws[w := x]) + WorkersMeasure([ws[w]]) == WorkersMeasure(ws) + WorkersMeasure([x])
  {
    assert forall y: Worker :: WorkersMeasure([y]) == match y case Idle => 1 case Sending(_) => 3 case Ended => 0;
    if w == 0 {
      assert ws[w := x][1..] == ws[1..];
    } else {
      assert ws[w := x][1..] == ws[1..][w - 1 := x];
      WorkersMeasureUpdate(ws[1..], w - 1, x);
    }
  }

  lemma {:induction false} WorkerStepDecreases(s: State, s': State, l: Label)
    requires (l.Receive? || l.Handled? || l.End?) && Step(s, l) == Some(s')
    ensures Measure(s') < Measure(s)
  {
    WorkersMeasureUpdate(s.workers, l.w, s'.workers[l.w]);
  }

  lemma {:induction false} StepDecreases(s: State, s': State, l: Label)
    requires Inv(s) && Step(s, l) == Some(s') && !l.Tick?
    ensures Measure(s') < Measure(s)
  {
    if l.Receive? || l.Handled? || l.End? {
      WorkerStepDecreases(s, s', l);
    } else {
      assert s'.workers == s.workers;
    }
  }

  /** With at least one worker a cancelled pool can always move until it is
      finished. */
  lemma {:induction false} NotStuck(s: State) returns (l: Label)
    requires Inv(s) && s.done && !Final(s) && s.workers != []
    ensures !l.Tick? && Step(s, l).Some?
  {
    if w :| 0 <= w < |s.workers| && s.workers[w].Sending? {
      l := Handled(w);
    } else if s.buf != [] {
      l := Receive(0);
    } else {
      match s.prod {
        case Selecting => l := Quit;
        case Looping(_) => l := Check;
        case Offering(_, _) => l := Put;
        case Exited =>
          var w :| 0 <= w < |s.workers| && !s.workers[w].Ended?;
          l := End(w);
      }
    }
  }

  /** For a positive rateLimit, runs without further ticks are bounded, and one
      that can go no further after cancellation has had every queued message
      handled by exactly one worker and ended every goroutine. */
  lemma {:induction false} PoolDrains(s: State, ls: seq<Label>)
    requires Inv(s) && s.workers != []
    requires Run(s, ls).Some? && forall l :: l in ls ==> !l.Tick?
    ensures var e := Run(s, ls).value;
            && |ls| + Measure(e) <= Measure(s)
            && (e.done && (forall l: Label :: !l.Tick? ==> Step(e, l).None?) ==>
                  Final(e) && e.finished == multiset(e.queued))
    decreases ls
  {
    if ls == [] {
      if s.done && !Final(s) {
        var l := NotStuck(s);
      } else if Final(s) {
        FinalHasHandledAll(s);
      }
    } else {
      assert ls[0] in ls && forall l :: l in ls[1..] ==> l in ls;
      StepDecreases(s, Step(s, ls[0]).value, ls[0]);
      StepKeepsInv(s, Step(s, ls[0]).value, ls[0]);
      PoolDrains(Step(s, ls[0]).value, ls[1..]);
    }
  }

  lemma {:induction false} FinalHasHandledAll(s: State)
    requires Inv(s) && Final(s)
    ensures s.finished == multiset(s.queued)
  {
    forall m
      ensures s.finished[m] == multiset(s.queued)[m]
    {
      IdleFlight(s.workers, m);
      assert multiset(s.taken)[m] == InFlight(s.workers, m) + s.finished[m];
    }
  }

  // ---------- Every snapshot can be handled ----------

  function Trip(): seq<Label> {
    [Check, Put, Receive(0), Handled(0)]
  }

  function Trips(n: nat): seq<Label> {
    if n == 0 then [] else Trip() + Trips(n - 1)
  }

  /** The producer in its loop, nothing in the channel, the first worker idle. */
  predicate Free(s: State) {
    !s.crashed && !s.done && !s.closed && s.prod.Looping? && s.buf == [] && s.workers != [] && s.workers[0].Idle?
  }

  lemma {:induction false} OneTrip(s: State)
    requires Free(s) && s.prod.rest != []
    ensures var m := s.prod.rest[0];
            Run(s, Trip()) == Some(s.(prod := Looping(s.prod.rest[1..]), queued := s.queued + [m],
                                      taken := s.taken + [m], finished := s.finished + multiset{m}))
  {
    var m, rest := s.prod.rest[0], s.prod.rest[1..];
    var s1 := Step(s, Check).value;
    var s2 := Step(s1, Put).value;
    assert [] + [m] == [m] && s2.buf == [m];
    var s3 := Step(s2, Receive(0)).value;
    assert [m][1..] == [] && s3.workers == s.workers[0 := Sending(m)];
    var s4 := Step(s3, Handled(0)).value;
    assert s4.workers == s.workers;
    FourSteps(s, s1, s2, s3, s4);
  }

  lemma {:induction false} FourSteps(s: State, s1: State, s2: State, s3: State, s4: State)
    requires Step(s, Check) == Some(s1) && Step(s1, Put) == Some(s2)
    requires Step(s2, Receive(0)) == Some(s3) && Step(s3, Handled(0)) == Some(s4)
    ensures Run(s, Trip()) == Some(s4)
  {
    assert Run(s4, []) == Some(s4);
    assert [Handled(0)][1..] == [] && Run(s3, [Handled(0)]) == Some(s4);
    assert [Receive(0), Handled(0)][1..] == [Handled(0)] && Run(s2, [Receive(0), Handled(0)]) == Some(s4);
    assert [Put, Receive(0), Handled(0)][1..] == [Receive(0), Handled(0)];
    assert Run(s1, [Put, Receive(0), Handled(0)]) == Some(s4);
    assert Trip()[1..] == [Put, Receive(0), Handled(0)];
  }

  lemma {:induction false} AllTrips(s: State)
    requires Free(s)
    ensures Run(s, Trips(|s.prod.rest|)).Some?
    ensures var e := Run(s, Trips(|s.prod.rest|)).value;
            Free(e) && e.prod.rest == [] && |e.workers| == |s.workers|
    decreases |s.prod.rest|
  {
    if s.prod.rest != [] {
      var n := |s.prod.rest|;
      OneTrip(s);
      var mid := Run(s, Trip()).value;
      AllTrips(mid);
      RunAppend(s, Trip(), Trips(n - 1));
    }
  }

  lemma {:induction false} NoTicksNoItems(ls: seq<Label>)
    requires forall l :: l in ls ==> !l.Tick?
    ensures TickItems(ls) == []
  {
    if ls != [] {
      assert ls[0] in ls && forall l :: l in ls[1..] ==> l in ls;
      NoTicksNoItems(ls[1..]);
    }
  }

  lemma {:induction false} TripsHaveNoTicks(n: nat)
    ensures forall l :: l in Trips(n) ==> !l.Tick?
  {
    if n > 0 {
      TripsHaveNoTicks(n - 1);
    }
  }

  /** A cancelled pool with a worker can be driven to its end. */
  lemma {:induction false} PoolFinishes(s: State) returns (ls: seq<Label>)
    requires Inv(s) && s.done && s.workers != []
    ensures Run(s, ls).Some? && Final(Run(s, ls).value)
    decreases Measure(s)
  {
    if Final(s) {
      ls := [];
    } else {
      var l := NotStuck(s);
      var s' := Step(s, l).value;
      StepDecreases(s, s', l);
      StepKeepsInv(s, s', l);
      assert s'.done;
      var rest := PoolFinishes(s');
      ls := [l] + rest;
      assert ls[1..] == rest;
    }
  }

  lemma {:induction false} EverySnapshotIsQueued(rateLimit: nat, items: seq<Metrics>)
    returns (early: seq<Label>, e: State)
    requires rateLimit > 0
    ensures TickItems(early) == items && Run(Init(rateLimit), early) == Some(e)
    ensures e.prod.Selecting? && !e.crashed && !e.done
  {
    var s := Step(Init(rateLimit), Tick(items)).value;
    var trips := Trips(|items|);
    AllTrips(s);
    var mid := Run(s, trips).value;
    e := Step(mid, Check).value;
    early := [Tick(items)] + (trips + [Check]);
    RunAppend(s, trips, [Check]);
    assert [Check][1..] == [] && Run(mid, [Check]) == Run(e, []) == Some(e);
    assert early[1..] == trips + [Check];
    TripsHaveNoTicks(|items|);
    NoTicksNoItems(early[1..]);
  }

  /** For a positive rateLimit any snapshot can be ticked, queued whole before the
      cancellation, and handled. */
  lemma {:induction false} EverySnapshotIsHandled(rateLimit: nat, items: seq<Metrics>)
    returns (early: seq<Label>, late: seq<Label>)
    requires rateLimit > 0
    ensures TickItems(early) == items
    ensures Run(Init(rateLimit), early).Some? && Run(Init(rateLimit), early).value.prod.Selecting?
    ensures Run(Init(rateLimit), early + [Cancel] + late).Some?
    ensures Final(Run(Init(rateLimit), early + [Cancel] + late).value)
  {
    var s;
    early, s := EverySnapshotIsQueued(rateLimit, items);
    InitInv(rateLimit);
    RunKeepsInv(Init(rateLimit), early);
    var s' := Step(s, Cancel).value;
    StepKeepsInv(s, s', Cancel);
    late := PoolFinishes(s');
    assert ([Cancel] + late)[1..] == late && early + [Cancel] + late == early + ([Cancel] + late);
    RunAppend(Init(rateLimit), early, [Cancel] + late);
  }

  // ---------- Without workers ----------

  /** Queueing `n` messages takes a check and a put for each. */
  function Filling(n: nat): seq<Label> {
    if n == 0 then [] else [Check, Put] + Filling(n - 1)
  }

  lemma {:induction false} OneFilled(s: State, rest: seq<Label>)
    requires !s.crashed && !s.done && !s.closed && s.prod.Looping? && s.prod.rest != [] && |s.buf| < CAPACITY
    ensures var m := s.prod.rest[0];
            Run(s, [Check, Put] + rest)
            == Run(s.(prod := Looping(s.prod.rest[1..]), buf := s.buf + [m], queued := s.queued + [m]), rest)
  {
    var ls := [Check, Put] + rest;
    assert ls[1..] == [Put] + rest && ls[1..][1..] == rest;
    var s1 := Step(s, Check).value;
    assert Run(s1, ls[1..]) == Run(Step(s1, Put).value, rest);
  }

  lemma {:induction false} Fills(s: State, n: nat)
    requires !s.crashed && !s.done && !s.closed && s.prod.Looping? && n <= |s.prod.rest| && |s.buf| + n <= CAPACITY
    ensures Run(s, Filling(n)) == Some(s.(prod := Looping(s.prod.rest[n..]),
                                          buf := s.buf + s.prod.rest[..n], queued := s.queued + s.prod.rest[..n]))
    decreases n
  {
    if n > 0 {
      var rest := s.prod.rest;
      OneFilled(s, Filling(n - 1));
      Fills(s.(prod := Looping(rest[1..]), buf := s.buf + [rest[0]], queued := s.queued + [rest[0]]), n - 1);
      assert rest[1..][n - 1..] == rest[n..] && [rest[0]] + rest[1..][..n - 1] == rest[..n];
      assert (s.buf + [rest[0]]) + rest[1..][..n - 1] == s.buf + rest[..n];
      assert (s.queued + [rest[0]]) + rest[1..][..n - 1] == s.queued + rest[..n];
    } else {
      assert s.prod.rest[..0] == [] && s.prod.rest[0..] == s.prod.rest;
      assert s.buf + [] == s.buf && s.queued + [] == s.queued;
    }
  }

  lemma {:induction false} RunAppend(s: State, ls: seq<Label>, ks: seq<Label>)
    requires Run(s, ls).Some?
    ensures Run(s, ls + ks) == Run(Run(s, ls).value, ks)
    decreases ls
  {
    if ls == [] {
      assert ls + ks == ks;
    } else {
      assert (ls + ks)[1..] == ls[1..] + ks;
      RunAppend(Step(s, ls[0]).value, ls[1..], ks);
    }
  }

  /** Up to 20 metrics are queued even without workers. */
  lemma {:induction false} ChannelHoldsTwenty(items: seq<Metrics>)
    requires |items| <= 20
    ensures var ls := [Tick(items)] + Filling(|items|);
            && Run(Init(0), ls).Some?
            && Run(Init(0), ls).value.buf == items && Run(Init(0), ls).value.prod == Looping([])
  {
    var s := Init(0).(prod := Looping(items));
    Fills(s, |items|);
    assert ([Tick(items)] + Filling(|items|))[1..] == Filling(|items|);
    assert [] + items[..|items|] == items && items[|items|..] == [];
  }

  /** A negative rate limit starts no workers but still queues, up to 20 messages:
      with more metrics than that, cancellation finds the producer blocked on the
      channel and nothing can ever move again. */
  lemma {:induction false} PoolWithoutWorkersHangs(items: seq<Metrics>) returns (ls: seq<Label>)
    requires |items| > 20
    ensures Run(Init(0), ls).Some?
    ensures var e := Run(Init(0), ls).value;
            e.done && !Final(e) && forall l :: Step(e, l).None?
  {
    var s := Init(0).(prod := Looping(items));
    Fills(s, CAPACITY);
    var full := Run(s, Filling(CAPACITY)).value;
    var tail := [Check, Cancel];
    RunAppend(s, Filling(CAPACITY), tail);
    assert tail[1..] == [Cancel] && [Cancel][1..] == [];
    var e := Step(Step(full, Check).value, Cancel).value;
    assert Run(full, tail) == Run(Step(full, Check).value, [Cancel]) == Run(e, []);
    ls := [Tick(items)] + (Filling(CAPACITY) + tail);
    assert ls[1..] == Filling(CAPACITY) + tail;
    assert Run(Init(0), ls) == Run(s, ls[1..]);
  }
}
