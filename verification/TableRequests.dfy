// Interleaved requests over the SQL table: each is a SELECT and then an UPDATE or
// an upsert, single statements that the database runs one at a time. Unlike
// memory, the table refuses a sum beyond 64 bits.

module TableRequests {
  import opened Wrappers
  import opened Int64
  import opened Models
  import opened AbstractStore
  import opened Database
  import opened Refinement
  import R = Requests

  datatype Phase = Start | Got(copy: Option<Reading>) | Ended(out: Outcome)

  /** `log` is a history variable: the requests that succeeded, in the order of
      their second statements. */
  datatype State = State(t: Table, phases: seq<Phase>, log: seq<nat>)

  function Init(reqs: seq<R.Request>, t: Table): State {
    State(t, seq(|reqs|, _ => Start), [])
  }

  /** What Get gives the handler, or that it fails. */
  function GetPhase(t: Table, k: string): Phase {
    if !IsText(k) then Ended(Failed)
    else if k !in t then Got(None)
    else if ReadOne(t[k]).None? then Ended(Failed)
    else Got(ReadOne(t[k]))
  }

  function SecondCall(t: Table, q: R.Request, copy: Option<Reading>): DbResult {
    if copy.Some? then DbUpdateSpec(t, q.id, q.v, copy)
    else match NewMetric(q.mtype, q.v)
      case None => DbResult(t, Panicked)
      case Some(r) => DbInsertSpec(t, q.id, r)
  }

  function Step(reqs: seq<R.Request>, s: State, i: nat): Option<State>
    requires |s.phases| == |reqs|
  {
    if i >= |reqs| then None
    else match s.phases[i]
      case Start => Some(s.(phases := s.phases[i := GetPhase(s.t, reqs[i].id)]))
      case Got(copy) =>
        var r := SecondCall(s.t, reqs[i], copy);
        Some(State(r.t, s.phases[i := Ended(r.out)], s.log + if r.out.Done? then [i] else []))
      case Ended(_) => None
  }

  function Run(reqs: seq<R.Request>, s: State, schedule: seq<nat>): Option<State>
    requires |s.phases| == |reqs|
    decreases schedule
  {
    if schedule == [] then Some(s)
    else
      match Step(reqs, s, schedule[0])
      case None => None
      case Some(s') => Run(reqs, s', schedule[1..])
  }

  /** A request nobody interrupts is the request of the serial table. */
  lemma {:induction false} AloneIsSerial(reqs: seq<R.Request>, s: State, i: nat)
    requires |s.phases| == |reqs| && i < |reqs| && s.phases[i].Start?
    ensures var q, mid := reqs[i], Step(reqs, s, i).value;
            var end := if mid.phases[i].Ended? then mid else Step(reqs, mid, i).value;
            DbResult(end.t, end.phases[i].out) == DbRequestSpec(s.t, q.id, q.mtype, q.v)
  {
  }

  // ---------- Sums ----------

  /** The deltas for `k` of the requests that succeeded. */
  function DoneTotal(reqs: seq<R.Request>, phases: seq<Phase>, k: string): int
    requires |reqs| == |phases|
  {
    if reqs == [] then 0
    else (if phases[0] == Ended(Done) then R.Delta(reqs[0], k) else 0) + DoneTotal(reqs[1..], phases[1..], k)
  }

  /** All increments of `k`, and all decrements. */
  function Up(reqs: seq<R.Request>, k: string): int {
    if reqs == [] then 0
    else var d := R.Delta(reqs[0], k); (if d > 0 then d else 0) + Up(reqs[1..], k)
  }

  function Down(reqs: seq<R.Request>, k: string): int {
    if reqs == [] then 0
    else var d := R.Delta(reqs[0], k); (if d < 0 then d else 0) + Down(reqs[1..], k)
  }

  lemma {:induction false} DoneTotalUpdate(reqs: seq<R.Request>, phases: seq<Phase>, i: nat, p: Phase, k: string)
    requires |reqs| == |phases| && i < |reqs| && phases[i] != Ended(Done)
    ensures DoneTotal(reqs, phases[i := p], k)
         == DoneTotal(reqs, phases, k) + if p == Ended(Done) then R.Delta(reqs[i], k) else 0
  {
    if i == 0 {
      assert phases[i := p][1..] == phases[1..];
    } else {
      assert phases[i := p][1..] == phases[1..][i - 1 := p];
      DoneTotalUpdate(reqs[1..], phases[1..], i - 1, p, k);
    }
  }

  lemma {:induction false} DoneTotalBounds(reqs: seq<R.Request>, phases: seq<Phase>, k: string)
    requires |reqs| == |phases|
    ensures Down(reqs, k) <= DoneTotal(reqs, phases, k) <= Up(reqs, k)
    ensures (forall i :: 0 <= i < |phases| && reqs[i].id == k ==> phases[i] == Ended(Done)) ==>
              DoneTotal(reqs, phases, k) == R.Total(reqs, k)
    ensures (forall i :: 0 <= i < |phases| ==> !phases[i].Ended?) ==> DoneTotal(reqs, phases, k) == 0
  {
    if reqs != [] {
      DoneTotalBounds(reqs[1..], phases[1..], k);
    }
  }

  // ---------- The invariant ----------

  ghost predicate SteadyRequests(reqs: seq<R.Request>, isCounter: string -> bool) {
    forall q :: q in reqs ==> SteadyValue(q.id, q.mtype, q.v, isCounter)
  }

  /** The last success for `k`. */
  function LastDone(reqs: seq<R.Request>, log: seq<nat>, k: string): Option<Any>
    requires forall i :: i in log ==> i < |reqs|
  {
    if log == [] then None
    else
      var i, before := log[|log| - 1], log[..|log| - 1];
      assert i in log && forall j :: j in before ==> j in log;
      if reqs[i].id == k then Some(reqs[i].v) else LastDone(reqs, before, k)
  }

  /** One name that was there from the start. */
  ghost predicate KeyInv(reqs: seq<R.Request>, t0: Table, s: State, k: string)
    requires k in t0 && |s.phases| == |reqs| && forall i :: i in s.log ==> i < |reqs|
  {
    && k in s.t
    && s.t[k].counter.Some? == t0[k].counter.Some?
    && (t0[k].counter.Some? ==> s.t[k].counter.value == t0[k].counter.value + DoneTotal(reqs, s.phases, k))
    && (t0[k].counter.None? ==>
          match LastDone(reqs, s.log, k)
          case Some(v) => v.Flt? && s.t[k].gauge == Some(v.f)
          case None => s.t[k].gauge == t0[k].gauge)
  }

  ghost predicate Inv(reqs: seq<R.Request>, t0: Table, s: State, isCounter: string -> bool) {
    && |s.phases| == |reqs| && (forall i :: i in s.log ==> i < |reqs|)
    && SteadyTable(s.t, isCounter) && t0.Keys <= s.t.Keys
    && (forall i :: 0 <= i < |reqs| ==>
          match s.phases[i]
          case Start => true
          case Got(copy) =>
            && (copy.None? ==> reqs[i].id !in t0)
            && (copy.Some? ==> reqs[i].id in s.t && (copy.value.Counter? <==> isCounter(reqs[i].id)))
          case Ended(out) => out.Done? || out.Failed?)
    && (forall k :: k in t0 ==> KeyInv(reqs, t0, s, k))
  }

  /** A second call of a steady request: it changes its own row only, and fails
      only on an overflow. */
  lemma {:induction false} SecondCallEffect(t: Table, q: R.Request, copy: Option<Reading>, isCounter: string -> bool)
    requires SteadyTable(t, isCounter) && SteadyValue(q.id, q.mtype, q.v, isCounter)
    requires copy.Some? ==> q.id in t && (copy.value.Counter? <==> isCounter(q.id))
    ensures var r := SecondCall(t, q, copy);
            && SteadyTable(r.t, isCounter) && t.Keys <= r.t.Keys
            && (forall k :: k in t && k != q.id ==> r.t[k] == t[k])
            && (r.out.Done? || r.out.Failed?)
            && (!r.out.Done? ==> r.t == t)
            && (copy.Some? && q.v.Int? ==>
                  && (r.out.Done? <==> InRange(t[q.id].counter.value + q.v.i))
                  && (r.out.Done? ==> r.t[q.id].counter == Some(t[q.id].counter.value + q.v.i)))
            && (copy.Some? && q.v.Flt? ==> r.out.Done? && r.t[q.id].gauge == Some(q.v.f))
  {
  }

  lemma {:induction false} LastDoneSnoc(reqs: seq<R.Request>, log: seq<nat>, i: nat, k: string)
    requires i < |reqs| && forall j :: j in log ==> j < |reqs|
    ensures forall j :: j in log + [i] ==> j < |reqs|
    ensures LastDone(reqs, log + [i], k) == if reqs[i].id == k then Some(reqs[i].v) else LastDone(reqs, log, k)
  {
    assert (log + [i])[..|log|] == log;
  }

  lemma {:induction false} SecondCallKeepsKey(reqs: seq<R.Request>, t0: Table, s: State, s': State, i: nat,
                                              isCounter: string -> bool, k: string)
    requires Inv(reqs, t0, s, isCounter) && SteadyRequests(reqs, isCounter)
    requires i < |reqs| && s.phases[i].Got? && Step(reqs, s, i) == Some(s') && k in t0
    ensures (forall j :: j in s'.log ==> j < |reqs|) && KeyInv(reqs, t0, s', k)
  {
    assert reqs[i] in reqs && KeyInv(reqs, t0, s, k);
    SecondCallEffect(s.t, reqs[i], s.phases[i].copy, isCounter);
    DoneTotalUpdate(reqs, s.phases, i, s'.phases[i], k);
    if s'.phases[i].out.Done? {
      LastDoneSnoc(reqs, s.log, i, k);
    } else {
      assert s'.log == s.log + [] == s.log;
    }
  }

  lemma {:induction false} SecondCallKeepsInv(reqs: seq<R.Request>, t0: Table, s: State, s': State, i: nat,
                                              isCounter: string -> bool)
    requires Inv(reqs, t0, s, isCounter) && SteadyRequests(reqs, isCounter)
    requires i < |reqs| && s.phases[i].Got? && Step(reqs, s, i) == Some(s')
    ensures Inv(reqs, t0, s', isCounter)
  {
    assert reqs[i] in reqs;
    SecondCallEffect(s.t, reqs[i], s.phases[i].copy, isCounter);
    forall k | k in t0
      ensures KeyInv(reqs, t0, s', k)
    {
      SecondCallKeepsKey(reqs, t0, s, s', i, isCounter, k);
    }
  }

  lemma {:induction false} GetKeepsInv(reqs: seq<R.Request>, t0: Table, s: State, s': State, i: nat,
                                       isCounter: string -> bool)
    requires Inv(reqs, t0, s, isCounter) && SteadyRequests(reqs, isCounter)
    requires i < |reqs| && s.phases[i].Start? && Step(reqs, s, i) == Some(s')
    ensures Inv(reqs, t0, s', isCounter)
  {
    assert reqs[i] in reqs && s'.phases[i].Got?;
    forall k | k in t0
      ensures KeyInv(reqs, t0, s', k)
    {
      assert KeyInv(reqs, t0, s, k);
      DoneTotalUpdate(reqs, s.phases, i, s'.phases[i], k);
    }
  }

  lemma {:induction false} RunKeepsInv(reqs: seq<R.Request>, t0: Table, s: State, schedule: seq<nat>,
                                       isCounter: string -> bool)
    requires Inv(reqs, t0, s, isCounter) && SteadyRequests(reqs, isCounter) && Run(reqs, s, schedule).Some?
    ensures Inv(reqs, t0, Run(reqs, s, schedule).value, isCounter)
    decreases schedule
  {
    if schedule != [] {
      var i := schedule[0];
      var s' := Step(reqs, s, i).value;
      if s.phases[i].Got? {
        SecondCallKeepsInv(reqs, t0, s, s', i, isCounter);
      } else {
        GetKeepsInv(reqs, t0, s, s', i, isCounter);
      }
      RunKeepsInv(reqs, t0, s', schedule[1..], isCounter);
    }
  }

  lemma {:induction false} InitInv(reqs: seq<R.Request>, t0: Table, isCounter: string -> bool)
    requires SteadyTable(t0, isCounter)
    ensures Inv(reqs, t0, Init(reqs, t0), isCounter)
  {
    forall k | k in t0
      ensures KeyInv(reqs, t0, Init(reqs, t0), k)
    {
      DoneTotalBounds(reqs, Init(reqs, t0).phases, k);
    }
  }

  // ---------- Main results ----------

  /** No lost updates in the table: at any moment of any interleaving a counter
      that was there is its start plus the deltas of exactly the requests that
      have succeeded, and a gauge that was there the value of the last success.
      No request ends otherwise than done or refused. */
  lemma {:induction false} NoLostUpdatesInTable(reqs: seq<R.Request>, t0: Table, schedule: seq<nat>,
                                                isCounter: string -> bool, k: string)
    requires SteadyTable(t0, isCounter) && SteadyRequests(reqs, isCounter) && k in t0
    requires Run(reqs, Init(reqs, t0), schedule).Some?
    ensures var s := Run(reqs, Init(reqs, t0), schedule).value;
            && |s.phases| == |reqs| && (forall i :: i in s.log ==> i < |reqs|)
            && (forall i :: 0 <= i < |reqs| && s.phases[i].Ended? ==> s.phases[i].out.Done? || s.phases[i].out.Failed?)
            && KeyInv(reqs, t0, s, k)
  {
    InitInv(reqs, t0, isCounter);
    RunKeepsInv(reqs, t0, Init(reqs, t0), schedule, isCounter);
  }

  /** No request for `k` has been refused. */
  ghost predicate Served(reqs: seq<R.Request>, s: State, k: string) {
    |s.phases| == |reqs| && forall i :: 0 <= i < |reqs| && reqs[i].id == k ==> s.phases[i] != Ended(Failed)
  }

  ghost predicate RunServes(reqs: seq<R.Request>, t0: Table, schedule: seq<nat>, k: string) {
    var end := Run(reqs, Init(reqs, t0), schedule);
    end.Some? ==> Served(reqs, end.value, k)
  }

  ghost predicate NeverRefused(reqs: seq<R.Request>, t0: Table, k: string) {
    forall schedule :: RunServes(reqs, t0, schedule, k)
  }

  /** The counter has room for all increments, and for all decrements. */
  predicate HasRoom(reqs: seq<R.Request>, t: Table, k: string) {
    && k in t && t[k].counter.Some?
    && InRange(t[k].counter.value + Up(reqs, k)) && InRange(t[k].counter.value + Down(reqs, k))
  }

  lemma {:induction false} RoomServesStep(reqs: seq<R.Request>, t0: Table, s: State, s': State, i: nat,
                                          isCounter: string -> bool, k: string)
    requires Inv(reqs, t0, s, isCounter) && SteadyRequests(reqs, isCounter) && isCounter(k)
    requires HasRoom(reqs, t0, k) && Served(reqs, s, k) && Step(reqs, s, i) == Some(s')
    ensures Served(reqs, s', k)
  {
    assert reqs[i] in reqs && KeyInv(reqs, t0, s, k);
    if s.phases[i].Got? && reqs[i].id == k {
      SecondCallEffect(s.t, reqs[i], s.phases[i].copy, isCounter);
      DoneTotalUpdate(reqs, s.phases, i, Ended(Done), k);
      DoneTotalBounds(reqs, s.phases[i := Ended(Done)], k);
    }
  }

  lemma {:induction false} RoomServesRun(reqs: seq<R.Request>, t0: Table, s: State, schedule: seq<nat>,
                                         isCounter: string -> bool, k: string)
    requires Inv(reqs, t0, s, isCounter) && SteadyRequests(reqs, isCounter) && isCounter(k)
    requires HasRoom(reqs, t0, k) && Served(reqs, s, k) && Run(reqs, s, schedule).Some?
    ensures Served(reqs, Run(reqs, s, schedule).value, k)
    decreases schedule
  {
    if schedule != [] {
      var s' := Step(reqs, s, schedule[0]).value;
      RoomServesStep(reqs, t0, s, s', schedule[0], isCounter, k);
      RunKeepsInv(reqs, t0, s, [schedule[0]], isCounter);
      assert Run(reqs, s, [schedule[0]]) == Run(reqs, s', []);
      RoomServesRun(reqs, t0, s', schedule[1..], isCounter, k);
    }
  }

  /** The increments of `k`, or the decrements. */
  predicate Chosen(q: R.Request, k: string, up: bool) {
    if up then R.Delta(q, k) > 0 else R.Delta(q, k) < 0
  }

  ghost predicate OnlyChosen(reqs: seq<R.Request>, s: State, k: string, up: bool, n: nat) {
    |s.phases| == |reqs| &&
    forall i :: 0 <= i < |reqs| ==> s.phases[i] == if i < n && Chosen(reqs[i], k, up) then Ended(Done) else Start
  }

  lemma {:induction false} ChosenTotal(reqs: seq<R.Request>, phases: seq<Phase>, k: string, up: bool)
    requires |phases| == |reqs|
    requires forall i :: 0 <= i < |reqs| ==> phases[i] == if Chosen(reqs[i], k, up) then Ended(Done) else Start
    ensures DoneTotal(reqs, phases, k) == if up then Up(reqs, k) else Down(reqs, k)
  {
    if reqs != [] {
      ChosenTotal(reqs[1..], phases[1..], k, up);
    }
  }

  lemma {:induction false} RunAppend(reqs: seq<R.Request>, s: State, a: seq<nat>, b: seq<nat>)
    requires |s.phases| == |reqs| && Run(reqs, s, a).Some?
    ensures |Run(reqs, s, a).value.phases| == |reqs|
    ensures Run(reqs, s, a + b) == Run(reqs, Run(reqs, s, a).value, b)
    decreases a
  {
    if a == [] {
      assert a + b == b;
    } else {
      assert (a + b)[1..] == a[1..] + b;
      RunAppend(reqs, Step(reqs, s, a[0]).value, a[1..], b);
    }
  }

  /** One request for a counter that is there, from its SELECT to its end. */
  lemma {:induction false} OneMore(reqs: seq<R.Request>, t0: Table, s: State, i: nat, isCounter: string -> bool)
    returns (e: State)
    requires Inv(reqs, t0, s, isCounter) && SteadyRequests(reqs, isCounter)
    requires i < |reqs| && s.phases[i].Start? && reqs[i].id in t0
    ensures Run(reqs, s, [i, i]) == Some(e) && Inv(reqs, t0, e, isCounter)
    ensures e.phases == s.phases[i := e.phases[i]] && (e.phases[i] == Ended(Done) || e.phases[i] == Ended(Failed))
  {
    assert reqs[i] in reqs;
    var mid := Step(reqs, s, i).value;
    GetKeepsInv(reqs, t0, s, mid, i, isCounter);
    e := Step(reqs, mid, i).value;
    SecondCallKeepsInv(reqs, t0, mid, e, i, isCounter);
    assert [i, i][1..] == [i] && [i][1..] == [];
    assert Run(reqs, mid, [i]) == Run(reqs, e, []);
  }

  lemma {:induction false} OneMoreChosen(reqs: seq<R.Request>, s: State, e: State, k: string, up: bool, n: nat)
    requires 0 < n <= |reqs| && OnlyChosen(reqs, s, k, up, n - 1) && Chosen(reqs[n - 1], k, up)
    requires |e.phases| == |reqs| && e.phases == s.phases[n - 1 := e.phases[n - 1]]
    requires e.phases[n - 1] == Ended(Done) || e.phases[n - 1] == Ended(Failed)
    requires Served(reqs, e, k)
    ensures OnlyChosen(reqs, e, k, up, n)
  {
    assert reqs[n - 1].id == k;
  }

  lemma {:induction false} NotRefused(reqs: seq<R.Request>, t0: Table, schedule: seq<nat>, s: State, k: string)
    requires NeverRefused(reqs, t0, k) && Run(reqs, Init(reqs, t0), schedule) == Some(s)
    ensures Served(reqs, s, k)
  {
    assert RunServes(reqs, t0, schedule, k);
  }

  lemma {:induction false} ChosenNext(reqs: seq<R.Request>, t0: Table, schedule: seq<nat>, s: State,
                                      isCounter: string -> bool, k: string, up: bool, n: nat)
    returns (longer: seq<nat>, e: State)
    requires SteadyRequests(reqs, isCounter) && k in t0 && n < |reqs| && Chosen(reqs[n], k, up)
    requires Run(reqs, Init(reqs, t0), schedule) == Some(s)
    requires Inv(reqs, t0, s, isCounter) && OnlyChosen(reqs, s, k, up, n)
    requires NeverRefused(reqs, t0, k)
    ensures Run(reqs, Init(reqs, t0), longer) == Some(e)
    ensures Inv(reqs, t0, e, isCounter) && OnlyChosen(reqs, e, k, up, n + 1)
  {
    e := OneMore(reqs, t0, s, n, isCounter);
    longer := schedule + [n, n];
    RunAppend(reqs, Init(reqs, t0), schedule, [n, n]);
    NotRefused(reqs, t0, longer, e, k);
    OneMoreChosen(reqs, s, e, k, up, n + 1);
  }

  lemma {:induction false} NotChosenNext(reqs: seq<R.Request>, s: State, k: string, up: bool, n: nat)
    requires OnlyChosen(reqs, s, k, up, n) && n < |reqs| && !Chosen(reqs[n], k, up)
    ensures OnlyChosen(reqs, s, k, up, n + 1)
  {
  }

  /** If nothing is ever refused, the chosen requests can all succeed first. */
  lemma {:induction false} ChosenFirst(reqs: seq<R.Request>, t0: Table, isCounter: string -> bool, k: string, up: bool,
                                       n: nat)
    returns (schedule: seq<nat>, s: State)
    requires SteadyTable(t0, isCounter) && SteadyRequests(reqs, isCounter) && k in t0 && n <= |reqs|
    requires NeverRefused(reqs, t0, k)
    ensures Run(reqs, Init(reqs, t0), schedule) == Some(s)
    ensures Inv(reqs, t0, s, isCounter) && OnlyChosen(reqs, s, k, up, n)
  {
    if n == 0 {
      schedule, s := [], Init(reqs, t0);
      InitInv(reqs, t0, isCounter);
    } else {
      schedule, s := ChosenFirst(reqs, t0, isCounter, k, up, n - 1);
      if Chosen(reqs[n - 1], k, up) {
        schedule, s := ChosenNext(reqs, t0, schedule, s, isCounter, k, up, n - 1);
      } else {
        NotChosenNext(reqs, s, k, up, n - 1);
      }
    }
  }

  lemma {:induction false} ServedMeansRoom(reqs: seq<R.Request>, t0: Table, isCounter: string -> bool, k: string,
                                           up: bool)
    requires SteadyTable(t0, isCounter) && SteadyRequests(reqs, isCounter) && k in t0 && isCounter(k)
    requires NeverRefused(reqs, t0, k)
    ensures InRange(t0[k].counter.value + if up then Up(reqs, k) else Down(reqs, k))
  {
    var schedule, s := ChosenFirst(reqs, t0, isCounter, k, up, |reqs|);
    ChosenTotal(reqs, s.phases, k, up);
    assert KeyInv(reqs, t0, s, k);
  }

  /** No interleaving refuses a request for a counter exactly when the counter
      has room for all increments together and for all decrements together; then
      every interleaving in which its requests have ended leaves the sum. */
  lemma {:induction false} NeverRefusedIff(reqs: seq<R.Request>, t0: Table, isCounter: string -> bool, k: string)
    requires SteadyTable(t0, isCounter) && SteadyRequests(reqs, isCounter) && k in t0 && isCounter(k)
    ensures NeverRefused(reqs, t0, k) <==> HasRoom(reqs, t0, k)
  {
    if HasRoom(reqs, t0, k) {
      forall schedule
        ensures RunServes(reqs, t0, schedule, k)
      {
        if Run(reqs, Init(reqs, t0), schedule).Some? {
          InitInv(reqs, t0, isCounter);
          RoomServesRun(reqs, t0, Init(reqs, t0), schedule, isCounter, k);
        }
      }
    } else {
      if NeverRefused(reqs, t0, k) {
        ServedMeansRoom(reqs, t0, isCounter, k, true);
        ServedMeansRoom(reqs, t0, isCounter, k, false);
      }
    }
  }

  lemma {:induction false} ServedIsTotal(reqs: seq<R.Request>, t0: Table, s: State, isCounter: string -> bool,
                                         k: string)
    requires Inv(reqs, t0, s, isCounter) && k in t0 && t0[k].counter.Some? && Served(reqs, s, k)
    requires forall i :: 0 <= i < |reqs| && reqs[i].id == k ==> s.phases[i].Ended?
    ensures k in s.t && ReadOne(s.t[k]) == Some(Counter(Wrap(t0[k].counter.value + R.Total(reqs, k))))
  {
    assert KeyInv(reqs, t0, s, k) && RowOK(s.t[k]);
    DoneTotalBounds(reqs, s.phases, k);
  }

  /** With room, table and memory end with the same counter: the plain sum. */
  lemma {:induction false} RoomKeepsTotal(reqs: seq<R.Request>, t0: Table, schedule: seq<nat>,
                                          isCounter: string -> bool, k: string)
    requires SteadyTable(t0, isCounter) && SteadyRequests(reqs, isCounter) && isCounter(k) && HasRoom(reqs, t0, k)
    requires Run(reqs, Init(reqs, t0), schedule).Some?
    requires var s := Run(reqs, Init(reqs, t0), schedule).value;
             |s.phases| == |reqs| && forall i :: 0 <= i < |reqs| && reqs[i].id == k ==> s.phases[i].Ended?
    ensures var s := Run(reqs, Init(reqs, t0), schedule).value;
            k in s.t && ReadOne(s.t[k]) == Some(Counter(Wrap(t0[k].counter.value + R.Total(reqs, k))))
  {
    InitInv(reqs, t0, isCounter);
    RunKeepsInv(reqs, t0, Init(reqs, t0), schedule, isCounter);
    RoomServesRun(reqs, t0, Init(reqs, t0), schedule, isCounter, k);
    ServedIsTotal(reqs, t0, Run(reqs, Init(reqs, t0), schedule).value, isCounter, k);
  }
}
