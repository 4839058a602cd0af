// internal/handlers/main.go, Update and UpdateJSON under concurrency: each
// request is two atomic storage calls, a Get and then an Update or an Insert,
// and any number of requests interleave over the in-memory store.

module Requests {
  import opened Wrappers
  import opened Int64
  import opened Models
  import opened AbstractStore

  /** A validated request. */
  datatype Request = Request(id: string, mtype: string, v: Any)

  datatype Phase = Start | Got(found: bool) | Ended(out: Outcome)

  /** One completed second call: who made it, and whether it was the Update. */
  datatype Write = Write(i: nat, found: bool)

  /** `log` is a history variable, the second calls in the order they ran. */
  datatype State = State(mem: MemState, phases: seq<Phase>, log: seq<Write>)

  function Init(reqs: seq<Request>, s: Store): State {
    State(MemState(s, false), seq(|reqs|, _ => Start), [])
  }

  /** The next storage call of request `i`; None if it has none or hangs. */
  function Step(reqs: seq<Request>, s: State, i: nat): Option<State>
    requires |s.phases| == |reqs|
  {
    if i >= |reqs| || s.mem.locked then None
    else match s.phases[i]
      case Start => Some(s.(phases := s.phases[i := Got(reqs[i].id in s.mem.store)]))
      case Got(found) =>
        var r := WriteSpec(s.mem, found, reqs[i].id, reqs[i].mtype, reqs[i].v);
        Some(State(r.st, s.phases[i := Ended(r.out)], s.log + [Write(i, found)]))
      case Ended(_) => None
  }

  /** An interleaving: which request moves at each step. */
  function Run(reqs: seq<Request>, s: State, schedule: seq<nat>): Option<State>
    requires |s.phases| == |reqs|
    decreases schedule
  {
    if schedule == [] then Some(s)
    else
      match Step(reqs, s, schedule[0])
      case None => None
      case Some(s') => Run(reqs, s', schedule[1..])
  }

  ghost predicate Complete(s: State) {
    forall i :: 0 <= i < |s.phases| ==> s.phases[i].Ended?
  }

  // ---------- Sums ----------

  function Delta(q: Request, k: string): int {
    if q.id == k && q.v.Int? then q.v.i else 0
  }

  /** The deltas for `k` of all requests, and of those that have ended. */
  function Total(reqs: seq<Request>, k: string): int {
    if reqs == [] then 0 else Delta(reqs[0], k) + Total(reqs[1..], k)
  }

  function EndedTotal(reqs: seq<Request>, phases: seq<Phase>, k: string): int
    requires |reqs| == |phases|
  {
    if reqs == [] then 0
    else (if phases[0].Ended? then Delta(reqs[0], k) else 0) + EndedTotal(reqs[1..], phases[1..], k)
  }

  /** How many requests name `k`, and how many of those have ended. */
  function Callers(reqs: seq<Request>, k: string): nat {
    if reqs == [] then 0 else (if reqs[0].id == k then 1 else 0) + Callers(reqs[1..], k)
  }

  function EndedCallers(reqs: seq<Request>, phases: seq<Phase>, k: string): nat
    requires |reqs| == |phases|
  {
    if reqs == [] then 0
    else (if phases[0].Ended? && reqs[0].id == k then 1 else 0) + EndedCallers(reqs[1..], phases[1..], k)
  }

  predicate InRangeLog(reqs: seq<Request>, log: seq<Write>) {
    forall w :: w in log ==> w.i < |reqs|
  }

  /** What the writes leave of `base` and the deltas: an Insert starts over. */
  function Kept(reqs: seq<Request>, log: seq<Write>, k: string, base: int): int
    requires InRangeLog(reqs, log)
  {
    if log == [] then base
    else
      var w, before := log[|log| - 1], log[..|log| - 1];
      assert InRangeLog(reqs, before) && w in log;
      if reqs[w.i].id != k then Kept(reqs, before, k, base)
      else if w.found then Kept(reqs, before, k, base) + Delta(reqs[w.i], k)
      else Delta(reqs[w.i], k)
  }

  /** What the last Insert for `k` threw away. */
  function Overwritten(reqs: seq<Request>, log: seq<Write>, k: string, base: int): int
    requires InRangeLog(reqs, log)
  {
    if log == [] then 0
    else
      var w, before := log[|log| - 1], log[..|log| - 1];
      assert InRangeLog(reqs, before) && w in log;
      if reqs[w.i].id == k && !w.found then Kept(reqs, before, k, base) + Overwritten(reqs, before, k, base)
      else Overwritten(reqs, before, k, base)
  }

  /** The number of Inserts for `k`. */
  function Inserts(reqs: seq<Request>, log: seq<Write>, k: string): nat
    requires InRangeLog(reqs, log)
  {
    if log == [] then 0
    else
      var w, before := log[|log| - 1], log[..|log| - 1];
      assert InRangeLog(reqs, before) && w in log;
      Inserts(reqs, before, k) + if reqs[w.i].id == k && !w.found then 1 else 0
  }

  /** The value of the last write to `k`. */
  function LastWritten(reqs: seq<Request>, log: seq<Write>, k: string): Option<Any>
    requires InRangeLog(reqs, log)
  {
    if log == [] then None
    else
      var w, before := log[|log| - 1], log[..|log| - 1];
      assert InRangeLog(reqs, before) && w in log;
      if reqs[w.i].id == k then Some(reqs[w.i].v) else LastWritten(reqs, before, k)
  }

  lemma {:induction false} LogSnoc(reqs: seq<Request>, log: seq<Write>, w: Write, k: string, base: int)
    requires InRangeLog(reqs, log) && w.i < |reqs|
    ensures InRangeLog(reqs, log + [w])
    ensures Kept(reqs, log + [w], k, base) ==
              if reqs[w.i].id != k then Kept(reqs, log, k, base)
              else if w.found then Kept(reqs, log, k, base) + Delta(reqs[w.i], k) else Delta(reqs[w.i], k)
    ensures Overwritten(reqs, log + [w], k, base) ==
              Overwritten(reqs, log, k, base) + if reqs[w.i].id == k && !w.found then Kept(reqs, log, k, base) else 0
    ensures Inserts(reqs, log + [w], k) == Inserts(reqs, log, k) + if reqs[w.i].id == k && !w.found then 1 else 0
    ensures LastWritten(reqs, log + [w], k)
         == if reqs[w.i].id == k then Some(reqs[w.i].v) else LastWritten(reqs, log, k)
  {
    assert (log + [w])[..|log|] == log;
  }

  lemma {:induction false} EndedTotalUpdate(reqs: seq<Request>, phases: seq<Phase>, i: nat, p: Phase, k: string)
    requires |reqs| == |phases| && i < |reqs| && !phases[i].Ended?
    ensures EndedTotal(reqs, phases[i := p], k)
         == EndedTotal(reqs, phases, k) + if p.Ended? then Delta(reqs[i], k) else 0
    ensures EndedCallers(reqs, phases[i := p], k)
         == EndedCallers(reqs, phases, k) + if p.Ended? && reqs[i].id == k then 1 else 0
  {
    if i == 0 {
      assert phases[i := p][1..] == phases[1..];
    } else {
      assert phases[i := p][1..] == phases[1..][i - 1 := p];
      EndedTotalUpdate(reqs[1..], phases[1..], i - 1, p, k);
    }
  }

  lemma {:induction false} EndedTotalBounds(reqs: seq<Request>, phases: seq<Phase>, k: string)
    requires |reqs| == |phases|
    ensures (forall i :: 0 <= i < |phases| ==> phases[i].Ended?) ==>
              EndedTotal(reqs, phases, k) == Total(reqs, k) && EndedCallers(reqs, phases, k) == Callers(reqs, k)
    ensures (forall i :: 0 <= i < |phases| ==> !phases[i].Ended?) ==>
              EndedTotal(reqs, phases, k) == 0 && EndedCallers(reqs, phases, k) == 0
  {
    if reqs != [] {
      EndedTotalBounds(reqs[1..], phases[1..], k);
    }
  }

  // ---------- The invariant ----------

  /** Requests whose values have the kind `isCounter` gives their names. */
  ghost predicate KindConsistent(reqs: seq<Request>, s: Store, isCounter: string -> bool) {
    && (forall q :: q in reqs ==> NewMetric(q.mtype, q.v).Some? && (isCounter(q.id) <==> q.v.Int?))
    && (forall k :: k in s ==> (isCounter(k) <==> s[k].Counter?))
  }

  /** One name: its reading follows from the writes, and what is kept and what
      is overwritten account for every ended request. */
  predicate KeyFacts(before: Option<Reading>, now: Option<Reading>, kept: int, lost: int, ended: int,
                     inserts: nat, last: Option<Any>) {
    && (now.None? <==> before.None? && last.None?)
    && (now.Some? && now.value.Counter? ==> now.value.c == Wrap(kept))
    && (now.Some? && now.value.Gauge? ==> if last.Some? then now.value.GetValue() == last.value else now == before)
    && kept + lost == Base(before) + ended
    && (before.Some? ==> inserts == 0)
    && (before.None? && last.None? ==> kept == 0 && inserts == 0)
    && (inserts <= 1 ==> lost == 0)
    && (before.None? && last.Some? ==> inserts > 0)
  }

  ghost predicate KeyInv(reqs: seq<Request>, s0: Store, s: State, k: string)
    requires InRangeLog(reqs, s.log) && |s.phases| == |reqs|
  {
    var base := Base(Lookup(s0, k));
    && KeyFacts(Lookup(s0, k), Lookup(s.mem.store, k), Kept(reqs, s.log, k, base), Overwritten(reqs, s.log, k, base),
                EndedTotal(reqs, s.phases, k), Inserts(reqs, s.log, k), LastWritten(reqs, s.log, k))
    && Inserts(reqs, s.log, k) <= EndedCallers(reqs, s.phases, k)
    && (LastWritten(reqs, s.log, k).None? <==> EndedCallers(reqs, s.phases, k) == 0)
  }

  lemma {:induction false} UpdateFacts(before: Option<Reading>, now: Reading, kept: int, lost: int, ended: int,
                                       inserts: nat, last: Option<Any>, v: Any)
    requires KeyFacts(before, Some(now), kept, lost, ended, inserts, last) && SameKind(now, v)
    ensures var d := if v.Int? then v.i else 0;
            KeyFacts(before, UpdateRule(now, v), kept + d, lost, ended + d, inserts, Some(v))
  {
    if v.Int? {
      WrapAbsorbs(kept, v.i);
    }
  }

  lemma {:induction false} InsertFacts(now: Option<Reading>, kept: int, lost: int, ended: int, inserts: nat,
                                       last: Option<Any>, v: Any)
    requires KeyFacts(None, now, kept, lost, ended, inserts, last) && IsNumber(v)
    ensures var d := if v.Int? then v.i else 0;
            KeyFacts(None, Some(Fresh(v)), d, lost + kept, ended + d, inserts + 1, Some(v))
  {
  }

  ghost predicate Inv(reqs: seq<Request>, s0: Store, s: State, isCounter: string -> bool) {
    && |s.phases| == |reqs| && InRangeLog(reqs, s.log)
    && !s.mem.locked
    && KindConsistent(reqs, s.mem.store, isCounter)
    && s0.Keys <= s.mem.store.Keys
    && (forall i :: 0 <= i < |reqs| ==>
          match s.phases[i]
          case Got(found) => if found then reqs[i].id in s.mem.store else reqs[i].id !in s0
          case Ended(out) => out.Done?
          case Start => true)
    && (forall k :: KeyInv(reqs, s0, s, k))
  }

  lemma {:induction false} InitInv(reqs: seq<Request>, s0: Store, isCounter: string -> bool)
    requires KindConsistent(reqs, s0, isCounter)
    ensures Inv(reqs, s0, Init(reqs, s0), isCounter)
  {
    var s := Init(reqs, s0);
    forall k
      ensures KeyInv(reqs, s0, s, k)
    {
      EndedTotalBounds(reqs, s.phases, k);
    }
  }

  lemma {:induction false} WriteIsDone(reqs: seq<Request>, st: MemState, isCounter: string -> bool, i: nat, found: bool)
    requires !st.locked && KindConsistent(reqs, st.store, isCounter) && i < |reqs|
    requires found ==> reqs[i].id in st.store
    ensures var q, r := reqs[i], WriteSpec(st, found, reqs[i].id, reqs[i].mtype, reqs[i].v);
            && r.out.Done? && !r.st.locked
            && KindConsistent(reqs, r.st.store, isCounter)
            && r.st.store == st.store[q.id := if found then UpdateRule(st.store[q.id], q.v).value else Fresh(q.v)]
  {
    assert reqs[i] in reqs;
  }

  /** A write and the facts of one name. */
  lemma {:induction false} WriteKeepsKey(reqs: seq<Request>, s0: Store, s: State, s': State, i: nat, found: bool,
                                         k: string)
    requires |s.phases| == |reqs| && InRangeLog(reqs, s.log) && i < |reqs| && IsNumber(reqs[i].v)
    requires s'.log == s.log + [Write(i, found)] && s'.phases == s.phases[i := Ended(Done)]
    requires s.phases[i] == Got(found) && (!found ==> reqs[i].id !in s0)
    requires found ==> reqs[i].id in s.mem.store && SameKind(s.mem.store[reqs[i].id], reqs[i].v)
    requires Lookup(s'.mem.store, k)
          == if k != reqs[i].id then Lookup(s.mem.store, k)
             else if found then UpdateRule(s.mem.store[k], reqs[i].v)
             else Some(Fresh(reqs[i].v))
    requires KeyInv(reqs, s0, s, k)
    ensures InRangeLog(reqs, s'.log) && KeyInv(reqs, s0, s', k)
  {
    var q, base := reqs[i], Base(Lookup(s0, k));
    LogSnoc(reqs, s.log, Write(i, found), k, base);
    EndedTotalUpdate(reqs, s.phases, i, Ended(Done), k);
    if q.id == k {
      var now := Lookup(s.mem.store, k);
      var kept, lost := Kept(reqs, s.log, k, base), Overwritten(reqs, s.log, k, base);
      var ended, inserts := EndedTotal(reqs, s.phases, k), Inserts(reqs, s.log, k);
      var last := LastWritten(reqs, s.log, k);
      if found {
        UpdateFacts(Lookup(s0, k), now.value, kept, lost, ended, inserts, last, q.v);
      } else {
        InsertFacts(now, kept, lost, ended, inserts, last, q.v);
      }
    }
  }

  lemma {:induction false} StepKeepsInv(reqs: seq<Request>, s0: Store, s: State, s': State, i: nat,
                                        isCounter: string -> bool)
    requires Inv(reqs, s0, s, isCounter) && Step(reqs, s, i) == Some(s')
    ensures Inv(reqs, s0, s', isCounter)
  {
    if s.phases[i].Start? {
      forall k
        ensures KeyInv(reqs, s0, s', k)
      {
        assert KeyInv(reqs, s0, s, k);
        EndedTotalUpdate(reqs, s.phases, i, s'.phases[i], k);
      }
    } else {
      WriteIsDone(reqs, s.mem, isCounter, i, s.phases[i].found);
      assert reqs[i] in reqs;
      forall k
        ensures KeyInv(reqs, s0, s', k)
      {
        assert KeyInv(reqs, s0, s, k);
        WriteKeepsKey(reqs, s0, s, s', i, s.phases[i].found, k);
      }
    }
  }

  lemma {:induction false} RunKeepsInv(reqs: seq<Request>, s0: Store, s: State, schedule: seq<nat>,
                                       isCounter: string -> bool)
    requires Inv(reqs, s0, s, isCounter) && Run(reqs, s, schedule).Some?
    ensures Inv(reqs, s0, Run(reqs, s, schedule).value, isCounter)
    decreases schedule
  {
    if schedule != [] {
      StepKeepsInv(reqs, s0, s, Step(reqs, s, schedule[0]).value, schedule[0], isCounter);
      RunKeepsInv(reqs, s0, Step(reqs, s, schedule[0]).value, schedule[1..], isCounter);
    }
  }

  // ---------- Serializability ----------

  /** The requests of a log one after the other, each uninterrupted. */
  function Serial(reqs: seq<Request>, st: MemState, log: seq<Write>): MemState
    requires InRangeLog(reqs, log)
  {
    if log == [] then st
    else
      var w, before := log[|log| - 1], log[..|log| - 1];
      assert InRangeLog(reqs, before) && w in log;
      SerialOne(Serial(reqs, st, before), reqs[w.i]).st
  }

  function SerialOne(st: MemState, q: Request): StepResult {
    RequestSpec(st, q.id, q.mtype, q.v)
  }

  /** Every Insert still found its name missing. */
  ghost predicate RaceFree(reqs: seq<Request>, st: MemState, log: seq<Write>)
    requires InRangeLog(reqs, log)
  {
    forall n :: 0 <= n < |log| ==> log[n].found || reqs[log[n].i].id !in SerialPrefix(reqs, st, log, n).store
  }

  function SerialPrefix(reqs: seq<Request>, st: MemState, log: seq<Write>, n: nat): MemState
    requires InRangeLog(reqs, log) && n <= |log|
  {
    assert InRangeLog(reqs, log[..n]);
    Serial(reqs, st, log[..n])
  }

  /** Each completed request ended as it would have at its turn. */
  ghost predicate SameOutcomes(reqs: seq<Request>, st: MemState, s: State)
    requires InRangeLog(reqs, s.log) && |s.phases| == |reqs|
  {
    forall n :: 0 <= n < |s.log| ==>
      s.phases[s.log[n].i] == Ended(SerialOne(SerialPrefix(reqs, st, s.log, n), reqs[s.log[n].i]).out)
  }

  /** What a Get has seen stays true as long as it matters. */
  ghost predicate FoundInv(reqs: seq<Request>, s0: Store, s: State) {
    && |s.phases| == |reqs| && InRangeLog(reqs, s.log)
    && s0.Keys <= s.mem.store.Keys
    && (forall i :: 0 <= i < |reqs| && s.phases[i] == Got(true) ==> reqs[i].id in s.mem.store)
    && (forall i :: 0 <= i < |reqs| && s.phases[i] == Got(false) ==> reqs[i].id !in s0)
    && (forall w :: w in s.log && !w.found ==> reqs[w.i].id !in s0)
  }

  ghost predicate SerialInv(reqs: seq<Request>, s0: Store, s: State)
    requires |s.phases| == |reqs| && InRangeLog(reqs, s.log)
  {
    RaceFree(reqs, MemState(s0, false), s.log) ==>
      s.mem == Serial(reqs, MemState(s0, false), s.log) && SameOutcomes(reqs, MemState(s0, false), s)
  }

  lemma {:induction false} StepKeepsFound(reqs: seq<Request>, s0: Store, s: State, s': State, i: nat)
    requires FoundInv(reqs, s0, s) && Step(reqs, s, i) == Some(s')
    ensures FoundInv(reqs, s0, s')
  {
    assert s.mem.store.Keys <= s'.mem.store.Keys;
    forall w | w in s'.log && !w.found
      ensures reqs[w.i].id !in s0
    {
      assert w in s.log || w == Write(i, s.phases[i].found);
    }
  }

  lemma {:induction false} SerialSnoc(reqs: seq<Request>, st: MemState, log: seq<Write>, w: Write)
    requires InRangeLog(reqs, log) && w.i < |reqs|
    ensures InRangeLog(reqs, log + [w])
    ensures Serial(reqs, st, log + [w]) == SerialOne(Serial(reqs, st, log), reqs[w.i]).st
    ensures forall n :: 0 <= n <= |log| ==> SerialPrefix(reqs, st, log + [w], n) == SerialPrefix(reqs, st, log, n)
    ensures SerialPrefix(reqs, st, log, |log|) == Serial(reqs, st, log)
  {
    assert (log + [w])[..|log|] == log && log[..|log|] == log;
    forall n | 0 <= n <= |log|
      ensures (log + [w])[..n] == log[..n]
    {
    }
  }

  lemma {:induction false} RaceFreeSnoc(reqs: seq<Request>, st: MemState, log: seq<Write>, w: Write)
    requires InRangeLog(reqs, log) && w.i < |reqs|
    requires InRangeLog(reqs, log + [w]) && RaceFree(reqs, st, log + [w])
    ensures RaceFree(reqs, st, log)
    ensures w.found || reqs[w.i].id !in Serial(reqs, st, log).store
  {
    SerialSnoc(reqs, st, log, w);
    assert (log + [w])[|log|] == w;
    forall n | 0 <= n < |log|
      ensures log[n].found || reqs[log[n].i].id !in SerialPrefix(reqs, st, log, n).store
    {
      assert (log + [w])[n] == log[n];
    }
  }

  lemma {:induction false} WriteKeepsSerial(reqs: seq<Request>, s0: Store, s: State, s': State, i: nat)
    requires FoundInv(reqs, s0, s) && SerialInv(reqs, s0, s)
    requires i < |reqs| && s.phases[i].Got? && Step(reqs, s, i) == Some(s')
    ensures InRangeLog(reqs, s'.log) && SerialInv(reqs, s0, s')
  {
    var st, w := MemState(s0, false), Write(i, s.phases[i].found);
    SerialSnoc(reqs, st, s.log, w);
    assert s'.log == s.log + [w] && s'.phases == s.phases[i := s'.phases[i]];
    if RaceFree(reqs, st, s'.log) {
      RaceFreeSnoc(reqs, st, s.log, w);
      assert WriteSpec(s.mem, w.found, reqs[i].id, reqs[i].mtype, reqs[i].v) == SerialOne(s.mem, reqs[i]);
      OutcomesGrow(reqs, st, s, s', w);
    }
  }

  lemma {:induction false} OutcomesGrow(reqs: seq<Request>, st: MemState, s: State, s': State, w: Write)
    requires |s.phases| == |s'.phases| == |reqs| && InRangeLog(reqs, s.log) && w.i < |reqs|
    requires s'.log == s.log + [w] && InRangeLog(reqs, s'.log)
    requires s'.phases == s.phases[w.i := s'.phases[w.i]] && !s.phases[w.i].Ended?
    requires SameOutcomes(reqs, st, s)
    requires s'.phases[w.i] == Ended(SerialOne(Serial(reqs, st, s.log), reqs[w.i]).out)
    ensures SameOutcomes(reqs, st, s')
  {
    SerialSnoc(reqs, st, s.log, w);
    forall n | 0 <= n < |s'.log|
      ensures s'.phases[s'.log[n].i] == Ended(SerialOne(SerialPrefix(reqs, st, s'.log, n), reqs[s'.log[n].i]).out)
    {
      if n < |s.log| {
        OutcomeStays(reqs, st, s, s', w, n);
      } else {
        assert s'.log[n] == w && SerialPrefix(reqs, st, s'.log, n) == Serial(reqs, st, s.log);
      }
    }
  }

  lemma {:induction false} OutcomeStays(reqs: seq<Request>, st: MemState, s: State, s': State, w: Write, n: nat)
    requires |s.phases| == |s'.phases| == |reqs| && InRangeLog(reqs, s.log) && w.i < |reqs| && n < |s.log|
    requires s'.log == s.log + [w] && InRangeLog(reqs, s'.log)
    requires s'.phases == s.phases[w.i := s'.phases[w.i]] && !s.phases[w.i].Ended?
    requires SameOutcomes(reqs, st, s)
    ensures s'.log[n] == s.log[n] && s'.log[n].i < |reqs|
    ensures s'.phases[s'.log[n].i] == Ended(SerialOne(SerialPrefix(reqs, st, s'.log, n), reqs[s'.log[n].i]).out)
  {
    SerialSnoc(reqs, st, s.log, w);
    assert s.log[n] in s.log && s.phases[s.log[n].i].Ended?;
  }

  lemma {:induction false} GetKeepsSerial(reqs: seq<Request>, s0: Store, s: State, s': State, i: nat)
    requires FoundInv(reqs, s0, s) && SerialInv(reqs, s0, s)
    requires i < |reqs| && s.phases[i].Start? && Step(reqs, s, i) == Some(s')
    ensures s'.log == s.log && SerialInv(reqs, s0, s')
  {
    if RaceFree(reqs, MemState(s0, false), s.log) {
      forall n | 0 <= n < |s.log|
        ensures s'.phases[s.log[n].i] == s.phases[s.log[n].i]
      {
        assert s.phases[s.log[n].i].Ended?;
      }
    }
  }

  lemma {:induction false} RunKeepsSerial(reqs: seq<Request>, s0: Store, s: State, schedule: seq<nat>)
    requires FoundInv(reqs, s0, s) && SerialInv(reqs, s0, s) && Run(reqs, s, schedule).Some?
    ensures FoundInv(reqs, s0, Run(reqs, s, schedule).value) && SerialInv(reqs, s0, Run(reqs, s, schedule).value)
    decreases schedule
  {
    if schedule != [] {
      var s' := Step(reqs, s, schedule[0]).value;
      StepKeepsFound(reqs, s0, s, s', schedule[0]);
      if s.phases[schedule[0]].Got? {
        WriteKeepsSerial(reqs, s0, s, s', schedule[0]);
      } else {
        GetKeepsSerial(reqs, s0, s, s', schedule[0]);
      }
      RunKeepsSerial(reqs, s0, s', schedule[1..]);
    }
  }

  // ---------- Main results ----------

  /** Any interleaving of any requests, complete or not, whatever their kinds, is
      equivalent to running the completed ones one after the other in the order
      of their writes, with the same outcomes, unless an Insert overtook another
      first write to its name; for names that were all there it always is. */
  lemma {:induction false} RaceFreeRunsAreSerializable(reqs: seq<Request>, s0: Store, schedule: seq<nat>)
    requires Run(reqs, Init(reqs, s0), schedule).Some?
    ensures var s := Run(reqs, Init(reqs, s0), schedule).value;
            && |s.phases| == |reqs| && InRangeLog(reqs, s.log)
            && (RaceFree(reqs, MemState(s0, false), s.log) ==>
                  s.mem == Serial(reqs, MemState(s0, false), s.log) && SameOutcomes(reqs, MemState(s0, false), s))
            && ((forall q :: q in reqs ==> q.id in s0) ==> RaceFree(reqs, MemState(s0, false), s.log))
  {
    RunKeepsSerial(reqs, s0, Init(reqs, s0), schedule);
    var s := Run(reqs, Init(reqs, s0), schedule).value;
    if forall q :: q in reqs ==> q.id in s0 {
      forall n | 0 <= n < |s.log|
        ensures s.log[n].found
      {
        assert s.log[n] in s.log && reqs[s.log[n].i] in reqs;
      }
    }
  }

  /** `schedule` is an interleaving in which every request ends. */
  ghost predicate Completes(reqs: seq<Request>, s0: Store, schedule: seq<nat>) {
    Run(reqs, Init(reqs, s0), schedule).Some? && Complete(Run(reqs, Init(reqs, s0), schedule).value)
  }

  /** The reading of `k` when it is over. */
  function EndReading(reqs: seq<Request>, s0: Store, schedule: seq<nat>, k: string): Option<Reading>
    requires Run(reqs, Init(reqs, s0), schedule).Some?
  {
    Lookup(Run(reqs, Init(reqs, s0), schedule).value.mem.store, k)
  }

  lemma {:induction false} CompleteFacts(reqs: seq<Request>, s0: Store, schedule: seq<nat>,
                                         isCounter: string -> bool, k: string)
    requires KindConsistent(reqs, s0, isCounter) && Completes(reqs, s0, schedule)
    ensures var s, base := Run(reqs, Init(reqs, s0), schedule).value, Base(Lookup(s0, k));
            && (forall i :: 0 <= i < |s.phases| ==> s.phases[i] == Ended(Done))
            && InRangeLog(reqs, s.log)
            && KeyFacts(Lookup(s0, k), Lookup(s.mem.store, k), Kept(reqs, s.log, k, base),
                        Overwritten(reqs, s.log, k, base), Total(reqs, k), Inserts(reqs, s.log, k),
                        LastWritten(reqs, s.log, k))
            && Inserts(reqs, s.log, k) <= Callers(reqs, k)
            && (LastWritten(reqs, s.log, k).None? <==> Callers(reqs, k) == 0)
            && (k in s.mem.store ==> (isCounter(k) <==> s.mem.store[k].Counter?))
  {
    var s := Run(reqs, Init(reqs, s0), schedule).value;
    InitInv(reqs, s0, isCounter);
    RunKeepsInv(reqs, s0, Init(reqs, s0), schedule, isCounter);
    EndedTotalBounds(reqs, s.phases, k);
    assert KeyInv(reqs, s0, s, k);
  }

  /** No lost updates on existing names: in every complete interleaving of any
      number of requests every request succeeds, a counter that was there ends
      at the wrapped sum of its start and all deltas, and a gauge that was there
      at the value of the last Update, or untouched. */
  lemma {:induction false} NoLostUpdates(reqs: seq<Request>, s0: Store, schedule: seq<nat>,
                                         isCounter: string -> bool, k: string)
    requires KindConsistent(reqs, s0, isCounter) && k in s0 && Completes(reqs, s0, schedule)
    ensures var s, end := Run(reqs, Init(reqs, s0), schedule).value, EndReading(reqs, s0, schedule, k);
            && (forall i :: 0 <= i < |s.phases| ==> s.phases[i] == Ended(Done))
            && InRangeLog(reqs, s.log)
            && match s0[k]
               case Counter(c) => end == Some(Counter(Wrap(c + Total(reqs, k))))
               case Gauge(g) =>
                 match LastWritten(reqs, s.log, k)
                 case Some(v) => v.Flt? && end == Some(Gauge(v.f))
                 case None => end == Some(Gauge(g))
  {
    CompleteFacts(reqs, s0, schedule, isCounter, k);
    var s := Run(reqs, Init(reqs, s0), schedule).value;
    if s0[k].Counter? {
      assert Overwritten(reqs, s.log, k, s0[k].c) == 0;
    }
  }

  // ---------- First writes ----------

  /** What a new counter should hold when all requests have ended. */
  function Expected(reqs: seq<Request>, k: string): Option<Reading> {
    if Callers(reqs, k) == 0 then None else Some(Counter(Wrap(Total(reqs, k))))
  }

  ghost predicate NoDeltas(reqs: seq<Request>, k: string) {
    forall q :: q in reqs ==> Delta(q, k) == 0
  }

  lemma {:induction false} NoDeltasKept(reqs: seq<Request>, log: seq<Write>, k: string)
    requires InRangeLog(reqs, log) && NoDeltas(reqs, k)
    ensures Kept(reqs, log, k, 0) == 0
  {
    if log != [] {
      var w, before := log[|log| - 1], log[..|log| - 1];
      assert InRangeLog(reqs, before) && w in log && reqs[w.i] in reqs;
      NoDeltasKept(reqs, before, k);
    }
  }

  lemma {:induction false} NoDeltasTotal(reqs: seq<Request>, k: string)
    requires NoDeltas(reqs, k)
    ensures Total(reqs, k) == 0
  {
    if reqs != [] {
      assert reqs[0] in reqs && forall q :: q in reqs[1..] ==> q in reqs;
      NoDeltasTotal(reqs[1..], k);
    }
  }

  lemma {:induction false} SomeCaller(reqs: seq<Request>, k: string) returns (i: nat)
    requires Callers(reqs, k) >= 1
    ensures i < |reqs| && reqs[i].id == k
  {
    if reqs[0].id == k {
      i := 0;
    } else {
      i := SomeCaller(reqs[1..], k);
      i := i + 1;
    }
  }

  lemma {:induction false} AnotherCaller(reqs: seq<Request>, k: string, i: nat) returns (j: nat)
    requires Callers(reqs, k) >= 2 && i < |reqs| && reqs[i].id == k
    ensures j < |reqs| && j != i && reqs[j].id == k
  {
    if i == 0 {
      j := SomeCaller(reqs[1..], k);
      j := j + 1;
    } else if reqs[0].id == k {
      j := 0;
    } else {
      j := AnotherCaller(reqs[1..], k, i - 1);
      j := j + 1;
    }
  }

  /** With one caller at most, or without deltas, no interleaving loses any. */
  lemma {:induction false} SafeFirstWrites(reqs: seq<Request>, s0: Store, schedule: seq<nat>,
                                           isCounter: string -> bool, k: string)
    requires KindConsistent(reqs, s0, isCounter) && k !in s0 && isCounter(k) && Completes(reqs, s0, schedule)
    requires Callers(reqs, k) <= 1 || NoDeltas(reqs, k)
    ensures EndReading(reqs, s0, schedule, k) == Expected(reqs, k)
  {
    CompleteFacts(reqs, s0, schedule, isCounter, k);
    if NoDeltas(reqs, k) {
      NoDeltasKept(reqs, Run(reqs, Init(reqs, s0), schedule).value.log, k);
      NoDeltasTotal(reqs, k);
    }
  }

  lemma {:induction false} RunAppend(reqs: seq<Request>, s: State, a: seq<nat>, b: seq<nat>)
    requires |s.phases| == |reqs| && Run(reqs, s, a).Some?
    ensures |Run(reqs, s, a).value.phases| == |reqs|
    ensures Run(reqs, s, a + b) == Run(reqs, Run(reqs, s, a).value, b)
    decreases a
  {
    if a == [] {
      assert a + b == b;
    } else {
      assert (a + b)[1..] == a[1..] + b;
      RunAppend(reqs, Step(reqs, s, a[0]).value, a[1..], b);
    }
  }

  /** Request `n` alone, from its Get to its end, when its name may be `k` and
      `k` is there: nothing of `k` is overwritten. */
  lemma {:induction false} OneMore(reqs: seq<Request>, s0: Store, s: State, n: nat, isCounter: string -> bool,
                                   k: string)
    returns (e: State)
    requires Inv(reqs, s0, s, isCounter) && n < |reqs| && k in s.mem.store && s.phases[n].Start?
    ensures Run(reqs, s, [n, n]) == Some(e) && Inv(reqs, s0, e, isCounter) && k in e.mem.store
    ensures e.phases[n].Ended? && forall m :: 0 <= m < |reqs| && m != n ==> e.phases[m] == s.phases[m]
    ensures Overwritten(reqs, e.log, k, 0) == Overwritten(reqs, s.log, k, 0)
  {
    var mid := Step(reqs, s, n).value;
    StepKeepsInv(reqs, s0, s, mid, n, isCounter);
    e := Step(reqs, mid, n).value;
    StepKeepsInv(reqs, s0, mid, e, n, isCounter);
    LogSnoc(reqs, s.log, Write(n, reqs[n].id in s.mem.store), k, 0);
    WriteIsDone(reqs, mid.mem, isCounter, n, reqs[n].id in s.mem.store);
    assert [n, n][1..] == [n] && [n][1..] == [];
    assert Run(reqs, mid, [n]) == Run(reqs, e, []);
  }

  /** The requests from `n` on that have not begun can be run one by one. */
  lemma {:induction false} RestInTurn(reqs: seq<Request>, s0: Store, s: State, n: nat,
                                      isCounter: string -> bool, k: string)
    returns (tail: seq<nat>)
    requires Inv(reqs, s0, s, isCounter) && n <= |reqs| && k in s.mem.store
    requires forall m :: 0 <= m < |reqs| ==> s.phases[m].Ended? || (m >= n && s.phases[m].Start?)
    ensures Run(reqs, s, tail).Some?
    ensures var e := Run(reqs, s, tail).value;
            && Complete(e) && InRangeLog(reqs, e.log)
            && Overwritten(reqs, e.log, k, 0) == Overwritten(reqs, s.log, k, 0)
    decreases |reqs| - n
  {
    if n == |reqs| {
      tail := [];
    } else if s.phases[n].Ended? {
      tail := RestInTurn(reqs, s0, s, n + 1, isCounter, k);
    } else {
      var e := OneMore(reqs, s0, s, n, isCounter, k);
      var rest := RestInTurn(reqs, s0, e, n + 1, isCounter, k);
      tail := [n, n] + rest;
      RunAppend(reqs, s, [n, n], rest);
    }
  }

  /** Both look before either writes: the second Insert throws away the first
      delta, and only that. */
  lemma {:induction false} RaceOfTwo(reqs: seq<Request>, s0: Store, isCounter: string -> bool, k: string, i: nat,
                                     j: nat)
    returns (s: State)
    requires KindConsistent(reqs, s0, isCounter) && k !in s0
    requires i < |reqs| && j < |reqs| && i != j && reqs[i].id == reqs[j].id == k
    ensures Run(reqs, Init(reqs, s0), [i, j, i, j]) == Some(s)
    ensures Inv(reqs, s0, s, isCounter) && k in s.mem.store
    ensures s.phases[i].Ended? && s.phases[j].Ended?
    ensures forall m :: 0 <= m < |reqs| && m != i && m != j ==> s.phases[m].Start?
    ensures Overwritten(reqs, s.log, k, 0) == Delta(reqs[i], k)
  {
    var init := Init(reqs, s0);
    InitInv(reqs, s0, isCounter);
    var s1 := Step(reqs, init, i).value;
    StepKeepsInv(reqs, s0, init, s1, i, isCounter);
    var s2 := Step(reqs, s1, j).value;
    StepKeepsInv(reqs, s0, s1, s2, j, isCounter);
    assert s2.mem == init.mem && s2.log == [] && s2.phases[i] == s2.phases[j] == Got(false);
    assert [i, j, i, j] == [i, j] + [i, j] && [i, j][1..] == [j] && [j][1..] == [];
    assert Run(reqs, s1, [j]) == Run(reqs, s2, []);
    assert Run(reqs, init, [i, j]) == Some(s2);
    RunAppend(reqs, init, [i, j], [i, j]);
    s := TwoInserts(reqs, s0, s2, isCounter, k, i, j);
  }

  /** An Insert starts over: what was kept is overwritten. */
  lemma {:induction false} OneInsert(reqs: seq<Request>, s0: Store, s: State, isCounter: string -> bool, k: string,
                                     i: nat)
    returns (e: State)
    requires Inv(reqs, s0, s, isCounter) && i < |reqs| && reqs[i].id == k && s.phases[i] == Got(false)
    ensures Step(reqs, s, i) == Some(e) && Inv(reqs, s0, e, isCounter) && k in e.mem.store
    ensures e.phases == s.phases[i := e.phases[i]] && e.phases[i].Ended?
    ensures e.log == s.log + [Write(i, false)] && Kept(reqs, e.log, k, 0) == Delta(reqs[i], k)
    ensures Overwritten(reqs, e.log, k, 0) == Overwritten(reqs, s.log, k, 0) + Kept(reqs, s.log, k, 0)
  {
    e := Step(reqs, s, i).value;
    StepKeepsInv(reqs, s0, s, e, i, isCounter);
    LogSnoc(reqs, s.log, Write(i, false), k, 0);
    WriteIsDone(reqs, s.mem, isCounter, i, false);
  }

  lemma {:induction false} TwoInserts(reqs: seq<Request>, s0: Store, s: State, isCounter: string -> bool, k: string,
                                      i: nat, j: nat)
    returns (e: State)
    requires Inv(reqs, s0, s, isCounter) && s.log == []
    requires i < |reqs| && j < |reqs| && i != j && reqs[i].id == reqs[j].id == k
    requires s.phases[i] == s.phases[j] == Got(false)
    ensures Run(reqs, s, [i, j]) == Some(e)
    ensures Inv(reqs, s0, e, isCounter) && k in e.mem.store
    ensures e.phases[i].Ended? && e.phases[j].Ended?
    ensures forall m :: 0 <= m < |reqs| && m != i && m != j ==> e.phases[m] == s.phases[m]
    ensures Overwritten(reqs, e.log, k, 0) == Delta(reqs[i], k)
  {
    var mid := OneInsert(reqs, s0, s, isCounter, k, i);
    e := OneInsert(reqs, s0, mid, isCounter, k, j);
    assert [i, j][1..] == [j] && [j][1..] == [];
    assert Run(reqs, mid, [j]) == Run(reqs, e, []);
  }

  lemma {:induction false} RunKeepsNames(reqs: seq<Request>, s: State, schedule: seq<nat>)
    requires |s.phases| == |reqs| && Run(reqs, s, schedule).Some?
    ensures s.mem.store.Keys <= Run(reqs, s, schedule).value.mem.store.Keys
    decreases schedule
  {
    if schedule != [] {
      assert s.mem.store.Keys <= Step(reqs, s, schedule[0]).value.mem.store.Keys;
      RunKeepsNames(reqs, Step(reqs, s, schedule[0]).value, schedule[1..]);
    }
  }

  /** What was overwritten is what is missing at the end. */
  lemma {:induction false} OverwrittenIsLost(reqs: seq<Request>, s0: Store, schedule: seq<nat>,
                                             isCounter: string -> bool, k: string)
    requires KindConsistent(reqs, s0, isCounter) && k !in s0 && isCounter(k) && Completes(reqs, s0, schedule)
    requires k in Run(reqs, Init(reqs, s0), schedule).value.mem.store
    ensures var log := Run(reqs, Init(reqs, s0), schedule).value.log;
            && InRangeLog(reqs, log)
            && EndReading(reqs, s0, schedule, k)
               == Some(Counter(Wrap(Total(reqs, k) - Overwritten(reqs, log, k, 0))))
  {
    CompleteFacts(reqs, s0, schedule, isCounter, k);
  }

  lemma {:induction false} LosingSchedule(reqs: seq<Request>, s0: Store, isCounter: string -> bool, k: string, i: nat,
                                          j: nat)
    returns (schedule: seq<nat>, e: State)
    requires KindConsistent(reqs, s0, isCounter) && k !in s0
    requires i < |reqs| && j < |reqs| && i != j && reqs[i].id == reqs[j].id == k
    ensures Run(reqs, Init(reqs, s0), schedule) == Some(e) && Complete(e) && k in e.mem.store
    ensures InRangeLog(reqs, e.log) && Overwritten(reqs, e.log, k, 0) == Delta(reqs[i], k)
  {
    var s := RaceOfTwo(reqs, s0, isCounter, k, i, j);
    var tail := RestInTurn(reqs, s0, s, 0, isCounter, k);
    schedule := [i, j, i, j] + tail;
    RunAppend(reqs, Init(reqs, s0), [i, j, i, j], tail);
    RunKeepsNames(reqs, s, tail);
    e := Run(reqs, s, tail).value;
  }

  /** For two requests that name a missing counter some complete interleaving
      loses exactly the delta of the first. */
  lemma {:induction false} LosingRun(reqs: seq<Request>, s0: Store, isCounter: string -> bool, k: string, i: nat,
                                     j: nat)
    returns (schedule: seq<nat>)
    requires KindConsistent(reqs, s0, isCounter) && k !in s0 && isCounter(k)
    requires i < |reqs| && j < |reqs| && i != j && reqs[i].id == reqs[j].id == k
    ensures Completes(reqs, s0, schedule)
    ensures EndReading(reqs, s0, schedule, k) == Some(Counter(Wrap(Total(reqs, k) - Delta(reqs[i], k))))
  {
    var e;
    schedule, e := LosingSchedule(reqs, s0, isCounter, k, i, j);
    OverwrittenIsLost(reqs, s0, schedule, isCounter, k);
  }

  /** A counter that is not there yet ends at the sum of its deltas in every
      complete interleaving exactly when at most one request names it or every
      delta for it is 0. */
  lemma {:induction false} FirstWritesKeepTotalIff(reqs: seq<Request>, s0: Store, isCounter: string -> bool, k: string)
    requires KindConsistent(reqs, s0, isCounter) && k !in s0 && isCounter(k)
    ensures (forall schedule :: Completes(reqs, s0, schedule) ==>
               EndReading(reqs, s0, schedule, k) == Expected(reqs, k))
            <==> Callers(reqs, k) <= 1 || NoDeltas(reqs, k)
  {
    if Callers(reqs, k) <= 1 || NoDeltas(reqs, k) {
      forall schedule | Completes(reqs, s0, schedule)
        ensures EndReading(reqs, s0, schedule, k) == Expected(reqs, k)
      {
        SafeFirstWrites(reqs, s0, schedule, isCounter, k);
      }
    } else {
      var q :| q in reqs && Delta(q, k) != 0;
      var i :| 0 <= i < |reqs| && reqs[i] == q;
      var j := AnotherCaller(reqs, k, i);
      var schedule := LosingRun(reqs, s0, isCounter, k, i, j);
      SameWrapIff(Total(reqs, k) - Delta(q, k), Delta(q, k));
      assert EndReading(reqs, s0, schedule, k) != Expected(reqs, k);
    }
  }

  /** Two requests that both look before either writes: the first delta is gone. */
  lemma {:induction false} FirstWriteRace(d: int64, e: int64)
    ensures var reqs := [Request("n", COUNTER, Int(d)), Request("n", COUNTER, Int(e))];
            var end := Run(reqs, Init(reqs, map[]), [0, 1, 0, 1]);
            end.Some? && Complete(end.value) && end.value.mem == MemState(map["n" := Counter(e)], false)
  {
    var reqs := [Request("n", COUNTER, Int(d)), Request("n", COUNTER, Int(e))];
    var s1 := Step(reqs, Init(reqs, map[]), 0).value;
    var s2 := Step(reqs, s1, 1).value;
    var s3 := Step(reqs, s2, 0).value;
    var s4 := Step(reqs, s3, 1).value;
    assert [0, 1, 0, 1][1..] == [1, 0, 1] && [1, 0, 1][1..] == [0, 1] && [0, 1][1..] == [1] && [1][1..] == [];
    assert Run(reqs, s3, [1]) == Run(reqs, s4, []);
    assert Run(reqs, s2, [0, 1]) == Run(reqs, s3, [1]);
    assert Run(reqs, s1, [1, 0, 1]) == Run(reqs, s2, [0, 1]);
    assert s4.mem.store == map["n" := Counter(e)];
  }
}
