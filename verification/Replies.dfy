// internal/handlers/main.go, UpdateJSON to its end: after the second storage call
// has released the mutex, a third step reads the reply off the metric object that
// the handler holds. Any number of requests interleave.

module Replies {
  import opened Wrappers
  import opened Int64
  import opened Models
  import opened AbstractStore
  import R = Requests

  /** A metric object; `name` is the name it was first stored under. */
  datatype Cell = Cell(name: string, val: Reading)

  /** `obj` is the handler's pointer. History: `at` is the number of second calls
      up to its own, `until` the number of them when the reply was read. */
  datatype Phase =
    | Start
    | Got(found: Option<nat>)
    | Wrote(obj: nat, at: nat)
    | Replied(obj: nat, at: nat, until: nat, v: Any)
    | Stopped(out: Outcome)

  /** A second call and the object it wrote, if any. */
  datatype Write = Write(i: nat, found: bool, obj: Option<nat>)

  /** Objects are numbered in the order of their creation; the store maps names
      to objects. `log` is a history variable. */
  datatype State = State(names: map<string, nat>, heap: seq<Cell>, locked: bool, phases: seq<Phase>, log: seq<Write>)

  predicate PhaseShape(q: R.Request, p: Phase, s: State) {
    match p
    case Start => true
    case Got(found) => found.Some? ==> q.id in s.names && found.value < |s.heap| && s.heap[found.value].name == q.id
    case Wrote(obj, _) => obj < |s.heap| && s.heap[obj].name == q.id
    case Replied(obj, _, _, _) => obj < |s.heap| && s.heap[obj].name == q.id
    case Stopped(_) => true
  }

  predicate Shape(reqs: seq<R.Request>, s: State) {
    && |s.phases| == |reqs|
    && (forall k :: k in s.names ==> s.names[k] < |s.heap| && s.heap[s.names[k]].name == k)
    && (forall i :: 0 <= i < |reqs| ==> PhaseShape(reqs[i], s.phases[i], s))
  }

  /** The second call: Update changes the object the store has now, which need
      not be the one Get returned; Insert rebinds the name to a new object. */
  function SecondCall(q: R.Request, s: State, i: nat, found: Option<nat>): State
    requires i < |s.phases|
    requires found.Some? ==> q.id in s.names && s.names[q.id] < |s.heap|
  {
    var turn := |s.log| + 1;
    if found.None? then
      match NewMetric(q.mtype, q.v)
      case None => s.(phases := s.phases[i := Stopped(Panicked)], log := s.log + [Write(i, false, None)])
      case Some(r) =>
        State(s.names[q.id := |s.heap|], s.heap + [Cell(q.id, r)], s.locked, s.phases[i := Wrote(|s.heap|, turn)],
              s.log + [Write(i, false, Some(|s.heap|))])
    else
      var target := s.names[q.id];
      match UpdateRule(s.heap[target].val, q.v)
      case None =>
        s.(locked := true, phases := s.phases[i := Stopped(if q.v.Nil? then Failed else Panicked)],
           log := s.log + [Write(i, true, None)])
      case Some(r) =>
        s.(heap := s.heap[target := s.heap[target].(val := r)], phases := s.phases[i := Wrote(found.value, turn)],
           log := s.log + [Write(i, true, Some(target))])
  }

  /** The next step of request `i`. Reading the reply takes no mutex. */
  function Step(reqs: seq<R.Request>, s: State, i: nat): (r: Option<State>)
    requires Shape(reqs, s)
    ensures r.Some? ==> Shape(reqs, r.value)
  {
    if i >= |reqs| then None
    else match s.phases[i]
      case Start =>
        if s.locked then None
        else Some(s.(phases := s.phases[i := Got(if reqs[i].id in s.names then Some(s.names[reqs[i].id]) else None)]))
      case Got(found) =>
        if s.locked then None
        else
          var s' := SecondCall(reqs[i], s, i, found);
          SecondCallKeepsShape(reqs, s, i);
          Some(s')
      case Wrote(obj, at) => Some(s.(phases := s.phases[i := Replied(obj, at, |s.log|, s.heap[obj].val.GetValue())]))
      case Replied(_, _, _, _) => None
      case Stopped(_) => None
  }

  lemma {:induction false} SecondCallKeepsShape(reqs: seq<R.Request>, s: State, i: nat)
    requires Shape(reqs, s) && i < |reqs| && s.phases[i].Got?
    ensures Shape(reqs, SecondCall(reqs[i], s, i, s.phases[i].found))
  {
    var s' := SecondCall(reqs[i], s, i, s.phases[i].found);
    assert |s.heap| <= |s'.heap| && forall o :: 0 <= o < |s.heap| ==> s'.heap[o].name == s.heap[o].name;
    assert PhaseShape(reqs[i], s.phases[i], s);
    forall j | 0 <= j < |reqs|
      ensures PhaseShape(reqs[j], s'.phases[j], s')
    {
      if j != i {
        PhaseShapeStays(reqs[j], s.phases[j], s, s');
      }
    }
  }

  lemma {:induction false} PhaseShapeStays(q: R.Request, p: Phase, s: State, s': State)
    requires PhaseShape(q, p, s) && s.names.Keys <= s'.names.Keys
    requires |s.heap| <= |s'.heap| && forall o :: 0 <= o < |s.heap| ==> s'.heap[o].name == s.heap[o].name
    ensures PhaseShape(q, p, s')
  {
  }

  /** A second call is logged, and after a successful one the handler holds the
      object that Get returned or the new one, under its name. */
  lemma {:induction false} SecondCallIsLogged(reqs: seq<R.Request>, s: State, s': State, i: nat)
    requires Shape(reqs, s) && i < |reqs| && s.phases[i].Got? && Step(reqs, s, i) == Some(s')
    ensures |s'.log| == |s.log| + 1
    ensures var w := s'.log[|s.log|]; s'.log == s.log + [w] && w.i == i && w.found == s.phases[i].found.Some?
    ensures forall j :: 0 <= j < |reqs| && j != i ==> s'.phases[j] == s.phases[j]
    ensures forall k :: k in s.names && (k != reqs[i].id || s.phases[i].found.Some?) ==>
              k in s'.names && s'.names[k] == s.names[k]
    ensures s'.phases[i].Stopped? || s'.phases[i].Wrote?
    ensures s'.phases[i].Wrote? ==>
              && s'.phases[i].at == |s'.log|
              && reqs[i].id in s'.names && s'.log[|s.log|].obj == Some(s'.names[reqs[i].id])
              && if s.phases[i].found.Some? then s'.phases[i].obj == s.phases[i].found.value
                 else s'.names[reqs[i].id] == s'.phases[i].obj
  {
    assert PhaseShape(reqs[i], s.phases[i], s);
  }

  function Run(reqs: seq<R.Request>, s: State, schedule: seq<nat>): (r: Option<State>)
    requires Shape(reqs, s)
    ensures r.Some? ==> Shape(reqs, r.value)
    decreases schedule
  {
    if schedule == [] then Some(s)
    else
      match Step(reqs, s, schedule[0])
      case None => None
      case Some(s') => Run(reqs, s', schedule[1..])
  }

  /** No request has begun, and the mutex is free. */
  ghost predicate Initial(reqs: seq<R.Request>, s: State) {
    Shape(reqs, s) && !s.locked && s.log == [] && forall i :: 0 <= i < |reqs| ==> s.phases[i].Start?
  }

  // ---------- The two-step model underneath ----------

  function Values(s: State): MemState
    requires forall k :: k in s.names ==> s.names[k] < |s.heap|
  {
    MemState(map k | k in s.names :: s.heap[s.names[k]].val, s.locked)
  }

  function PlainPhase(p: Phase): R.Phase {
    match p
    case Start => R.Start
    case Got(found) => R.Got(found.Some?)
    case Wrote(_, _) => R.Ended(Done)
    case Replied(_, _, _, _) => R.Ended(Done)
    case Stopped(out) => R.Ended(out)
  }

  function PlainLog(log: seq<Write>): seq<R.Write> {
    seq(|log|, n requires 0 <= n < |log| => R.Write(log[n].i, log[n].found))
  }

  /** Forget the objects and the replies. */
  function Plain(reqs: seq<R.Request>, s: State): R.State
    requires Shape(reqs, s)
  {
    R.State(Values(s), seq(|s.phases|, n requires 0 <= n < |s.phases| => PlainPhase(s.phases[n])), PlainLog(s.log))
  }

  /** Every step but a reply is a step of the two-step model; a reply is none. */
  lemma {:induction false} StepIsPlainStep(reqs: seq<R.Request>, s: State, s': State, i: nat)
    requires Shape(reqs, s) && Step(reqs, s, i) == Some(s')
    ensures if s.phases[i].Wrote? then Plain(reqs, s') == Plain(reqs, s)
            else R.Step(reqs, Plain(reqs, s), i) == Some(Plain(reqs, s'))
  {
    var a, b := Plain(reqs, s), Plain(reqs, s');
    assert b.phases == a.phases[i := PlainPhase(s'.phases[i])];
    if s.phases[i].Got? {
      assert b.log == a.log + [R.Write(i, s.phases[i].found.Some?)];
      SecondCallIsWrite(reqs, s, s', i);
    } else {
      assert b.log == a.log && b.mem == a.mem;
    }
  }

  lemma {:induction false} SecondCallIsWrite(reqs: seq<R.Request>, s: State, s': State, i: nat)
    requires Shape(reqs, s) && i < |reqs| && s.phases[i].Got? && Step(reqs, s, i) == Some(s')
    ensures var r := WriteSpec(Values(s), s.phases[i].found.Some?, reqs[i].id, reqs[i].mtype, reqs[i].v);
            Values(s') == r.st && PlainPhase(s'.phases[i]) == R.Ended(r.out)
  {
    assert PhaseShape(reqs[i], s.phases[i], s);
    if s.phases[i].found.Some? {
      UpdateIsUpdate(reqs[i], s, i, s.phases[i].found);
    } else {
      InsertIsInsert(reqs[i], s, i);
    }
  }

  lemma {:induction false} InsertIsInsert(q: R.Request, s: State, i: nat)
    requires (forall k :: k in s.names ==> s.names[k] < |s.heap|) && i < |s.phases| && !s.locked
    ensures var s', r := SecondCall(q, s, i, None), WriteSpec(Values(s), false, q.id, q.mtype, q.v);
            && (forall k :: k in s'.names ==> s'.names[k] < |s'.heap|)
            && Values(s') == r.st && PlainPhase(s'.phases[i]) == R.Ended(r.out)
  {
    var s' := SecondCall(q, s, i, None);
    if NewMetric(q.mtype, q.v).Some? {
      assert Values(s').store == Values(s).store[q.id := NewMetric(q.mtype, q.v).value];
    }
  }

  lemma {:induction false} UpdateIsUpdate(q: R.Request, s: State, i: nat, found: Option<nat>)
    requires forall k :: k in s.names ==> s.names[k] < |s.heap| && s.heap[s.names[k]].name == k
    requires i < |s.phases| && !s.locked && found.Some? && q.id in s.names
    ensures var s', r := SecondCall(q, s, i, found), WriteSpec(Values(s), true, q.id, q.mtype, q.v);
            && (forall k :: k in s'.names ==> s'.names[k] < |s'.heap|)
            && Values(s') == r.st && PlainPhase(s'.phases[i]) == R.Ended(r.out)
  {
    var s', after := SecondCall(q, s, i, found), UpdateRule(s.heap[s.names[q.id]].val, q.v);
    if after.Some? {
      assert Values(s').store == Values(s).store[q.id := after.value];
    }
  }

  // ---------- What an object holds ----------

  predicate InRangeLog(reqs: seq<R.Request>, log: seq<Write>) {
    forall w :: w in log ==> w.i < |reqs|
  }

  /** A request's effect on the object it writes; None is an object that does not
      exist yet. */
  function Effect(before: Option<Reading>, q: R.Request): Option<Reading> {
    if before.None? then NewMetric(q.mtype, q.v)
    else if UpdateRule(before.value, q.v).None? then before
    else UpdateRule(before.value, q.v)
  }

  /** What a stretch of second calls leaves in object `o`. */
  function After(reqs: seq<R.Request>, before: Option<Reading>, ws: seq<Write>, o: nat): Option<Reading>
    requires InRangeLog(reqs, ws)
  {
    if ws == [] then before
    else
      var w, rest := ws[|ws| - 1], ws[..|ws| - 1];
      assert InRangeLog(reqs, rest) && w in ws;
      if w.obj == Some(o) then Effect(After(reqs, before, rest, o), reqs[w.i]) else After(reqs, before, rest, o)
  }

  /** The deltas a stretch of second calls adds to `o`, and the gauge it leaves. */
  function DeltasTo(reqs: seq<R.Request>, ws: seq<Write>, o: nat): int
    requires InRangeLog(reqs, ws)
  {
    if ws == [] then 0
    else
      var w, rest := ws[|ws| - 1], ws[..|ws| - 1];
      assert InRangeLog(reqs, rest) && w in ws;
      DeltasTo(reqs, rest, o) + if w.obj == Some(o) && reqs[w.i].v.Int? then reqs[w.i].v.i else 0
  }

  function LastGauge(reqs: seq<R.Request>, ws: seq<Write>, o: nat, g: Float64): Float64
    requires InRangeLog(reqs, ws)
  {
    if ws == [] then g
    else
      var w, rest := ws[|ws| - 1], ws[..|ws| - 1];
      assert InRangeLog(reqs, rest) && w in ws;
      if w.obj == Some(o) && reqs[w.i].v.Flt? then reqs[w.i].v.f else LastGauge(reqs, rest, o, g)
  }

  lemma {:induction false} AfterSnoc(reqs: seq<R.Request>, before: Option<Reading>, ws: seq<Write>, w: Write, o: nat)
    requires InRangeLog(reqs, ws) && w.i < |reqs|
    ensures InRangeLog(reqs, ws + [w])
    ensures After(reqs, before, ws + [w], o)
         == var mid := After(reqs, before, ws, o); if w.obj == Some(o) then Effect(mid, reqs[w.i]) else mid
  {
    assert (ws + [w])[..|ws|] == ws;
  }

  lemma {:induction false} AfterAppend(reqs: seq<R.Request>, before: Option<Reading>, us: seq<Write>, ws: seq<Write>,
                                       o: nat)
    requires InRangeLog(reqs, us) && InRangeLog(reqs, ws)
    ensures InRangeLog(reqs, us + ws)
    ensures After(reqs, before, us + ws, o) == After(reqs, After(reqs, before, us, o), ws, o)
    decreases |ws|
  {
    if ws == [] {
      assert us + ws == us;
    } else {
      var w, rest := ws[|ws| - 1], ws[..|ws| - 1];
      assert us + ws == (us + rest) + [w] && ws == rest + [w] && w in ws;
      AfterAppend(reqs, before, us, rest, o);
      AfterSnoc(reqs, before, us + rest, w, o);
    }
  }

  /** A counter grows by the deltas written to it; a gauge holds the last value
      written to it. */
  lemma {:induction false} ObjectMeaning(reqs: seq<R.Request>, r: Reading, ws: seq<Write>, o: nat)
    requires InRangeLog(reqs, ws)
    ensures After(reqs, Some(r), ws, o)
         == match r
            case Counter(c) => Some(Counter(Wrap(c + DeltasTo(reqs, ws, o))))
            case Gauge(g) => Some(Gauge(LastGauge(reqs, ws, o, g)))
    decreases |ws|
  {
    if ws != [] {
      var w, rest := ws[|ws| - 1], ws[..|ws| - 1];
      assert InRangeLog(reqs, rest) && w in ws;
      ObjectMeaning(reqs, r, rest, o);
      if r.Counter? && w.obj == Some(o) && reqs[w.i].v.Int? {
        WrapAbsorbs(r.c + DeltasTo(reqs, rest, o), reqs[w.i].v.i);
      }
    }
  }

  // ---------- The invariant ----------

  /** What object `o` held before the first request. */
  function Before(heap0: seq<Cell>, o: nat): Option<Reading> {
    if o < |heap0| then Some(heap0[o].val) else None
  }

  /** The place of a request's second call, and for a reply what it has read. */
  ghost predicate PhaseHistory(reqs: seq<R.Request>, heap0: seq<Cell>, log: seq<Write>, i: nat, p: Phase)
    requires InRangeLog(reqs, log)
  {
    match p
    case Wrote(obj, at) => 1 <= at <= |log| && log[at - 1].i == i && Upto(reqs, heap0, log, at, obj).Some?
    case Replied(obj, at, until, v) =>
      && 1 <= at <= until <= |log| && log[at - 1].i == i
      && Upto(reqs, heap0, log, at, obj).Some? && Upto(reqs, heap0, log, until, obj).Some?
      && v == Upto(reqs, heap0, log, until, obj).value.GetValue()
    case _ => true
  }

  /** What object `o` held after the first `n` second calls. */
  function Upto(reqs: seq<R.Request>, heap0: seq<Cell>, log: seq<Write>, n: nat, o: nat): Option<Reading>
    requires InRangeLog(reqs, log) && n <= |log|
  {
    assert InRangeLog(reqs, log[..n]);
    After(reqs, Before(heap0, o), log[..n], o)
  }

  ghost predicate History(reqs: seq<R.Request>, heap0: seq<Cell>, s: State) {
    && |s.phases| == |reqs| && InRangeLog(reqs, s.log)
    && (forall o: nat :: After(reqs, Before(heap0, o), s.log, o) == if o < |s.heap| then Some(s.heap[o].val) else None)
    && (forall i :: 0 <= i < |reqs| ==> PhaseHistory(reqs, heap0, s.log, i, s.phases[i]))
  }

  /** More second calls do not change what is past. */
  lemma {:induction false} PastStays(reqs: seq<R.Request>, heap0: seq<Cell>, log: seq<Write>, w: Write, i: nat,
                                     p: Phase)
    requires InRangeLog(reqs, log) && w.i < |reqs| && PhaseHistory(reqs, heap0, log, i, p)
    ensures InRangeLog(reqs, log + [w]) && PhaseHistory(reqs, heap0, log + [w], i, p)
  {
    assert forall n :: 0 <= n <= |log| ==> (log + [w])[..n] == log[..n];
  }

  /** A second call has on each object the effect its log entry says. */
  lemma {:induction false} WriteKeepsObjects(reqs: seq<R.Request>, heap0: seq<Cell>, s: State, s': State, i: nat,
                                             o: nat)
    requires Shape(reqs, s) && History(reqs, heap0, s)
    requires i < |reqs| && s.phases[i].Got? && Step(reqs, s, i) == Some(s')
    ensures InRangeLog(reqs, s'.log)
    ensures After(reqs, Before(heap0, o), s'.log, o) == if o < |s'.heap| then Some(s'.heap[o].val) else None
  {
    assert PhaseShape(reqs[i], s.phases[i], s);
    var w := s'.log[|s.log|];
    assert s'.log == s.log + [w] && w.i == i;
    AfterSnoc(reqs, Before(heap0, o), s.log, w, o);
  }

  lemma {:induction false} WriteKeepsHistory(reqs: seq<R.Request>, heap0: seq<Cell>, s: State, s': State, i: nat)
    requires Shape(reqs, s) && Shape(reqs, s') && History(reqs, heap0, s)
    requires i < |reqs| && s.phases[i].Got? && Step(reqs, s, i) == Some(s')
    ensures History(reqs, heap0, s')
  {
    SecondCallIsLogged(reqs, s, s', i);
    forall o: nat
      ensures After(reqs, Before(heap0, o), s'.log, o) == if o < |s'.heap| then Some(s'.heap[o].val) else None
    {
      WriteKeepsObjects(reqs, heap0, s, s', i, o);
    }
    assert InRangeLog(reqs, s'.log);
    forall j | 0 <= j < |reqs|
      ensures PhaseHistory(reqs, heap0, s'.log, j, s'.phases[j])
    {
      if j == i {
        NewPhaseHistory(reqs, heap0, s', i);
      } else {
        PastStays(reqs, heap0, s.log, s'.log[|s.log|], j, s.phases[j]);
      }
    }
  }

  lemma {:induction false} NewPhaseHistory(reqs: seq<R.Request>, heap0: seq<Cell>, s: State, i: nat)
    requires Shape(reqs, s) && InRangeLog(reqs, s.log) && i < |reqs|
    requires forall o: nat ::
               After(reqs, Before(heap0, o), s.log, o) == if o < |s.heap| then Some(s.heap[o].val) else None
    requires |s.log| > 0 && s.log[|s.log| - 1].i == i
    requires s.phases[i].Stopped? || (s.phases[i].Wrote? && s.phases[i].at == |s.log|)
    ensures PhaseHistory(reqs, heap0, s.log, i, s.phases[i])
  {
    assert PhaseShape(reqs[i], s.phases[i], s) && s.log[..|s.log|] == s.log;
  }

  lemma {:induction false} ReplyKeepsHistory(reqs: seq<R.Request>, heap0: seq<Cell>, s: State, s': State, i: nat)
    requires Shape(reqs, s) && History(reqs, heap0, s)
    requires i < |reqs| && !s.phases[i].Got? && Step(reqs, s, i) == Some(s')
    ensures History(reqs, heap0, s')
  {
    assert s.log[..|s.log|] == s.log && s'.log == s.log && s'.heap == s.heap;
  }

  // ---------- The serial answer ----------

  /** The value under request `i`'s name right after its turn, when the second
      calls up to `at` are run as whole requests one after the other. */
  function SerialAnswer(reqs: seq<R.Request>, st: MemState, log: seq<Write>, i: nat, at: nat): Option<Reading>
    requires InRangeLog(reqs, log) && at <= |log| && i < |reqs|
  {
    PlainLogInRange(reqs, log);
    Lookup(R.SerialPrefix(reqs, st, PlainLog(log), at).store, reqs[i].id)
  }

  lemma {:induction false} PlainLogInRange(reqs: seq<R.Request>, log: seq<Write>)
    requires InRangeLog(reqs, log)
    ensures R.InRangeLog(reqs, PlainLog(log))
  {
    forall w | w in PlainLog(log)
      ensures w.i < |reqs|
    {
      var n :| 0 <= n < |log| && PlainLog(log)[n] == w;
      assert log[n] in log;
    }
  }

  ghost predicate RaceFree(reqs: seq<R.Request>, st: MemState, log: seq<Write>)
    requires InRangeLog(reqs, log)
  {
    PlainLogInRange(reqs, log);
    R.RaceFree(reqs, st, PlainLog(log))
  }

  /** Without races a handler's pointer stays the stored object, and right after
      its second call the object holds the serial answer. */
  ghost predicate InTurn(reqs: seq<R.Request>, st: MemState, heap0: seq<Cell>, s: State, i: nat)
    requires |s.phases| == |reqs| && InRangeLog(reqs, s.log) && i < |reqs|
  {
    match s.phases[i]
    case Got(Some(o)) => reqs[i].id in s.names && s.names[reqs[i].id] == o
    case Wrote(obj, at) =>
      && 1 <= at <= |s.log| && s.log[at - 1].obj == Some(obj)
      && SerialAnswer(reqs, st, s.log, i, at) == Upto(reqs, heap0, s.log, at, obj)
    case Replied(obj, at, _, _) =>
      && 1 <= at <= |s.log| && s.log[at - 1].obj == Some(obj)
      && SerialAnswer(reqs, st, s.log, i, at) == Upto(reqs, heap0, s.log, at, obj)
    case _ => true
  }

  ghost predicate Inv(reqs: seq<R.Request>, init: State, s: State) {
    && Shape(reqs, init) && Shape(reqs, s)
    && History(reqs, init.heap, s)
    && R.FoundInv(reqs, Values(init).store, Plain(reqs, s))
    && R.SerialInv(reqs, Values(init).store, Plain(reqs, s))
    && (RaceFree(reqs, MemState(Values(init).store, false), s.log) ==>
          forall i :: 0 <= i < |reqs| ==> InTurn(reqs, MemState(Values(init).store, false), init.heap, s, i))
  }

  lemma {:induction false} InitInv(reqs: seq<R.Request>, init: State)
    requires Initial(reqs, init)
    ensures Inv(reqs, init, init)
    ensures Plain(reqs, init) == R.Init(reqs, Values(init).store)
  {
    assert Plain(reqs, init).phases == R.Init(reqs, Values(init).store).phases;
    assert Plain(reqs, init).log == [];
  }

  lemma {:induction false} PlainKeepsInv(reqs: seq<R.Request>, s0: Store, a: R.State, b: R.State, i: nat)
    requires R.FoundInv(reqs, s0, a) && R.SerialInv(reqs, s0, a) && R.Step(reqs, a, i) == Some(b)
    ensures R.FoundInv(reqs, s0, b) && R.SerialInv(reqs, s0, b)
  {
    R.StepKeepsFound(reqs, s0, a, b, i);
    if a.phases[i].Got? {
      R.WriteKeepsSerial(reqs, s0, a, b, i);
    } else {
      R.GetKeepsSerial(reqs, s0, a, b, i);
    }
  }

  /** The answers of the past do not change. */
  lemma {:induction false} SerialStays(reqs: seq<R.Request>, st: MemState, log: seq<Write>, w: Write, i: nat, at: nat)
    requires InRangeLog(reqs, log) && w.i < |reqs| && i < |reqs| && at <= |log|
    ensures InRangeLog(reqs, log + [w])
    ensures SerialAnswer(reqs, st, log + [w], i, at) == SerialAnswer(reqs, st, log, i, at)
  {
    PlainLogInRange(reqs, log);
    PlainLogInRange(reqs, log + [w]);
    assert PlainLog(log + [w])[..at] == PlainLog(log)[..at];
  }

  lemma {:induction false} RaceFreeBefore(reqs: seq<R.Request>, st: MemState, log: seq<Write>, w: Write)
    requires InRangeLog(reqs, log) && w.i < |reqs|
    requires InRangeLog(reqs, log + [w]) && RaceFree(reqs, st, log + [w])
    ensures RaceFree(reqs, st, log)
    ensures R.InRangeLog(reqs, PlainLog(log))
    ensures w.found || reqs[w.i].id !in R.Serial(reqs, st, PlainLog(log)).store
  {
    PlainLogInRange(reqs, log);
    PlainLogInRange(reqs, log + [w]);
    assert PlainLog(log + [w]) == PlainLog(log) + [R.Write(w.i, w.found)];
    R.RaceFreeSnoc(reqs, st, PlainLog(log), R.Write(w.i, w.found));
  }

  /** The object under the name of a handler that has just written holds the
      serial answer. */
  lemma {:induction false} AnswerNow(reqs: seq<R.Request>, init: State, s: State, i: nat, o: nat)
    requires Shape(reqs, s) && Shape(reqs, init) && History(reqs, init.heap, s)
    requires R.SerialInv(reqs, Values(init).store, Plain(reqs, s))
    requires RaceFree(reqs, MemState(Values(init).store, false), s.log)
    requires i < |reqs| && reqs[i].id in s.names && s.names[reqs[i].id] == o
    ensures SerialAnswer(reqs, MemState(Values(init).store, false), s.log, i, |s.log|)
         == Upto(reqs, init.heap, s.log, |s.log|, o)
  {
    var n := |s.log|;
    PlainLogInRange(reqs, s.log);
    assert PlainLog(s.log)[..n] == PlainLog(s.log) && s.log[..n] == s.log;
    assert Values(s) == R.Serial(reqs, MemState(Values(init).store, false), PlainLog(s.log));
  }

  /** The step's own request, right after its second call. */
  lemma {:induction false} OwnTurn(reqs: seq<R.Request>, init: State, s: State, s': State, i: nat)
    requires Shape(reqs, s) && Shape(reqs, s') && Shape(reqs, init) && InRangeLog(reqs, s.log)
    requires i < |reqs| && s.phases[i].Got? && Step(reqs, s, i) == Some(s')
    requires InTurn(reqs, MemState(Values(init).store, false), init.heap, s, i)
    requires History(reqs, init.heap, s') && R.SerialInv(reqs, Values(init).store, Plain(reqs, s'))
    requires RaceFree(reqs, MemState(Values(init).store, false), s'.log)
    ensures InTurn(reqs, MemState(Values(init).store, false), init.heap, s', i)
  {
    SecondCallIsLogged(reqs, s, s', i);
    if s'.phases[i].Wrote? {
      AnswerNow(reqs, init, s', i, s'.phases[i].obj);
    }
  }

  /** Another request, while somebody else makes a second call: one that has read
      keeps its pointer, because nobody inserts its name any more. */
  lemma {:induction false} OthersPointer(reqs: seq<R.Request>, st: MemState, s: State, s': State, w: Write, j: nat)
    requires Shape(reqs, s) && InRangeLog(reqs, s.log) && w.i < |reqs| && j < |reqs|
    requires s'.log == s.log + [w]
    requires forall k :: k in s.names && (k != reqs[w.i].id || w.found) ==> k in s'.names && s'.names[k] == s.names[k]
    requires InRangeLog(reqs, s'.log) && RaceFree(reqs, st, s'.log)
    requires R.InRangeLog(reqs, PlainLog(s.log)) && Values(s) == R.Serial(reqs, st, PlainLog(s.log))
    requires reqs[j].id in s.names
    ensures reqs[j].id in s'.names && s'.names[reqs[j].id] == s.names[reqs[j].id]
  {
    RaceFreeBefore(reqs, st, s.log, w);
    assert reqs[j].id in Values(s).store;
  }

  /** And one that has written keeps its past. */
  lemma {:induction false} OthersTurn(reqs: seq<R.Request>, init: State, s: State, s': State, w: Write, j: nat)
    requires Shape(reqs, init) && Shape(reqs, s) && Shape(reqs, s') && w.i < |reqs| && InRangeLog(reqs, s.log)
    requires R.InRangeLog(reqs, PlainLog(s.log)) && R.SerialInv(reqs, Values(init).store, Plain(reqs, s))
    requires s'.log == s.log + [w] && j < |reqs| && s'.phases[j] == s.phases[j]
    requires forall k :: k in s.names && (k != reqs[w.i].id || w.found) ==> k in s'.names && s'.names[k] == s.names[k]
    requires InTurn(reqs, MemState(Values(init).store, false), init.heap, s, j)
    requires RaceFree(reqs, MemState(Values(init).store, false), s.log)
    requires InRangeLog(reqs, s'.log) && RaceFree(reqs, MemState(Values(init).store, false), s'.log)
    ensures InTurn(reqs, MemState(Values(init).store, false), init.heap, s', j)
  {
    var st := MemState(Values(init).store, false);
    match s.phases[j] {
      case Got(Some(o)) =>
        OthersPointer(reqs, st, s, s', w, j);
      case Wrote(obj, at) => TurnStays(reqs, st, init.heap, s.log, w, j, at, obj);
      case Replied(obj, at, _, _) => TurnStays(reqs, st, init.heap, s.log, w, j, at, obj);
      case _ =>
    }
  }

  lemma {:induction false} TurnStays(reqs: seq<R.Request>, st: MemState, heap0: seq<Cell>, log: seq<Write>, w: Write,
                                     j: nat, at: nat, o: nat)
    requires InRangeLog(reqs, log) && w.i < |reqs| && j < |reqs| && 1 <= at <= |log|
    ensures InRangeLog(reqs, log + [w]) && (log + [w])[at - 1] == log[at - 1]
    ensures SerialAnswer(reqs, st, log + [w], j, at) == SerialAnswer(reqs, st, log, j, at)
    ensures Upto(reqs, heap0, log + [w], at, o) == Upto(reqs, heap0, log, at, o)
  {
    SerialStays(reqs, st, log, w, j, at);
    assert (log + [w])[..at] == log[..at];
  }

  lemma {:induction false} WriteKeepsInv(reqs: seq<R.Request>, init: State, s: State, s': State, i: nat)
    requires Inv(reqs, init, s) && i < |reqs| && s.phases[i].Got? && Step(reqs, s, i) == Some(s')
    ensures Inv(reqs, init, s')
  {
    var st := MemState(Values(init).store, false);
    StepIsPlainStep(reqs, s, s', i);
    PlainKeepsInv(reqs, st.store, Plain(reqs, s), Plain(reqs, s'), i);
    WriteKeepsHistory(reqs, init.heap, s, s', i);
    SecondCallIsLogged(reqs, s, s', i);
    if RaceFree(reqs, st, s'.log) {
      RaceFreeBefore(reqs, st, s.log, s'.log[|s.log|]);
      forall j | 0 <= j < |reqs|
        ensures InTurn(reqs, st, init.heap, s', j)
      {
        if j == i {
          OwnTurn(reqs, init, s, s', i);
        } else {
          OthersTurn(reqs, init, s, s', s'.log[|s.log|], j);
        }
      }
    }
  }

  lemma {:induction false} ReplyKeepsInv(reqs: seq<R.Request>, init: State, s: State, s': State, i: nat)
    requires Inv(reqs, init, s) && i < |reqs| && !s.phases[i].Got? && Step(reqs, s, i) == Some(s')
    ensures Inv(reqs, init, s')
  {
    var st := MemState(Values(init).store, false);
    StepIsPlainStep(reqs, s, s', i);
    if !s.phases[i].Wrote? {
      PlainKeepsInv(reqs, st.store, Plain(reqs, s), Plain(reqs, s'), i);
    }
    ReplyKeepsHistory(reqs, init.heap, s, s', i);
    if RaceFree(reqs, st, s.log) {
      forall j | 0 <= j < |reqs|
        ensures InTurn(reqs, st, init.heap, s', j)
      {
        ReplyKeepsTurn(reqs, st, init.heap, s, s', i, j);
      }
    }
  }

  lemma {:induction false} ReplyKeepsTurn(reqs: seq<R.Request>, st: MemState, heap0: seq<Cell>, s: State, s': State,
                                          i: nat, j: nat)
    requires Shape(reqs, s) && InRangeLog(reqs, s.log) && i < |reqs| && j < |reqs| && InTurn(reqs, st, heap0, s, j)
    requires !s.phases[i].Got? && Step(reqs, s, i) == Some(s')
    ensures s'.log == s.log && InTurn(reqs, st, heap0, s', j)
  {
    assert s'.names == s.names && (j != i ==> s'.phases[j] == s.phases[j]);
  }

  lemma {:induction false} StepKeepsInv(reqs: seq<R.Request>, init: State, s: State, s': State, i: nat)
    requires Inv(reqs, init, s) && Step(reqs, s, i) == Some(s')
    ensures Inv(reqs, init, s')
  {
    if s.phases[i].Got? {
      WriteKeepsInv(reqs, init, s, s', i);
    } else {
      ReplyKeepsInv(reqs, init, s, s', i);
    }
  }

  lemma {:induction false} RunKeepsInv(reqs: seq<R.Request>, init: State, s: State, schedule: seq<nat>)
    requires Inv(reqs, init, s) && Run(reqs, s, schedule).Some?
    ensures Inv(reqs, init, Run(reqs, s, schedule).value)
    decreases schedule
  {
    if schedule != [] {
      StepKeepsInv(reqs, init, s, Step(reqs, s, schedule[0]).value, schedule[0]);
      RunKeepsInv(reqs, init, Step(reqs, s, schedule[0]).value, schedule[1..]);
    }
  }

  // ---------- Main results ----------

  /** The store does not notice the replies: every run is a run of the two-step
      model with the same values, outcomes and second calls, so what is proved of
      those holds here. */
  lemma {:induction false} RunIsPlainRun(reqs: seq<R.Request>, s: State, schedule: seq<nat>)
    returns (plain: seq<nat>)
    requires Shape(reqs, s) && Run(reqs, s, schedule).Some?
    ensures R.Run(reqs, Plain(reqs, s), plain) == Some(Plain(reqs, Run(reqs, s, schedule).value))
    decreases schedule
  {
    if schedule == [] {
      plain := [];
    } else {
      var i := schedule[0];
      var s' := Step(reqs, s, i).value;
      StepIsPlainStep(reqs, s, s', i);
      var rest := RunIsPlainRun(reqs, s', schedule[1..]);
      plain := if s.phases[i].Wrote? then rest else [i] + rest;
    }
  }

  /** Request `i` has had its reply, after its own second call. */
  ghost predicate HasReply(reqs: seq<R.Request>, s: State, i: nat) {
    && |s.phases| == |reqs| && InRangeLog(reqs, s.log) && i < |reqs|
    && s.phases[i].Replied? && 1 <= s.phases[i].at <= s.phases[i].until <= |s.log|
  }

  /** What its object held right after its second call. */
  ghost function Own(reqs: seq<R.Request>, heap0: seq<Cell>, s: State, i: nat): Option<Reading>
    requires HasReply(reqs, s, i)
  {
    Upto(reqs, heap0, s.log, s.phases[i].at, s.phases[i].obj)
  }

  /** The second calls between its own and the reading of the reply. */
  ghost function Between(reqs: seq<R.Request>, s: State, i: nat): (ws: seq<Write>)
    requires HasReply(reqs, s, i)
    ensures InRangeLog(reqs, ws)
  {
    s.log[s.phases[i].at..s.phases[i].until]
  }

  /** What a reply says when its object held `own` right after the second call:
      every delta written to the object since is in it, or the last gauge. */
  ghost function LaterValue(reqs: seq<R.Request>, s: State, i: nat, own: Reading): Any
    requires HasReply(reqs, s, i)
  {
    match own
    case Counter(c) => Int(Wrap(c + DeltasTo(reqs, Between(reqs, s, i), s.phases[i].obj)))
    case Gauge(g) => Flt(LastGauge(reqs, Between(reqs, s, i), s.phases[i].obj, g))
  }

  lemma {:induction false} ReplyReads(reqs: seq<R.Request>, heap0: seq<Cell>, log: seq<Write>, at: nat, until: nat,
                                      o: nat)
    requires InRangeLog(reqs, log) && at <= until <= |log| && Upto(reqs, heap0, log, at, o).Some?
    ensures InRangeLog(reqs, log[at..until])
    ensures Upto(reqs, heap0, log, until, o)
         == match Upto(reqs, heap0, log, at, o).value
            case Counter(c) => Some(Counter(Wrap(c + DeltasTo(reqs, log[at..until], o))))
            case Gauge(g) => Some(Gauge(LastGauge(reqs, log[at..until], o, g)))
  {
    UptoSplits(reqs, heap0, log, at, until, o);
    ObjectMeaning(reqs, Upto(reqs, heap0, log, at, o).value, log[at..until], o);
  }

  lemma {:induction false} UptoSplits(reqs: seq<R.Request>, heap0: seq<Cell>, log: seq<Write>, at: nat, until: nat,
                                      o: nat)
    requires InRangeLog(reqs, log) && at <= until <= |log|
    ensures InRangeLog(reqs, log[at..until])
    ensures Upto(reqs, heap0, log, until, o) == After(reqs, Upto(reqs, heap0, log, at, o), log[at..until], o)
  {
    assert log[..until] == log[..at] + log[at..until];
    AfterAppend(reqs, Before(heap0, o), log[..at], log[at..until], o);
  }

  lemma {:induction false} EndHistory(reqs: seq<R.Request>, init: State, schedule: seq<nat>)
    requires Initial(reqs, init) && Run(reqs, init, schedule).Some?
    ensures History(reqs, init.heap, Run(reqs, init, schedule).value)
  {
    InitInv(reqs, init);
    RunKeepsInv(reqs, init, init, schedule);
  }

  lemma {:induction false} HistoryReads(reqs: seq<R.Request>, heap0: seq<Cell>, s: State, i: nat)
    requires History(reqs, heap0, s) && i < |reqs| && s.phases[i].Replied?
    ensures HasReply(reqs, s, i) && s.log[s.phases[i].at - 1].i == i
    ensures Own(reqs, heap0, s, i).Some? && s.phases[i].v == LaterValue(reqs, s, i, Own(reqs, heap0, s, i).value)
  {
    assert PhaseHistory(reqs, heap0, s.log, i, s.phases[i]);
    ReplyReads(reqs, heap0, s.log, s.phases[i].at, s.phases[i].until, s.phases[i].obj);
  }

  /** What a reply says: the value its object had right after the handler's own
      second call plus every delta written to that object before the reply was
      read; for a gauge the last value written to it. */
  lemma {:induction false} ReplyAddsLaterWrites(reqs: seq<R.Request>, init: State, schedule: seq<nat>, i: nat)
    requires Initial(reqs, init) && Run(reqs, init, schedule).Some? && i < |reqs|
    requires Run(reqs, init, schedule).value.phases[i].Replied?
    ensures var s := Run(reqs, init, schedule).value;
            && HasReply(reqs, s, i) && s.log[s.phases[i].at - 1].i == i
            && Own(reqs, init.heap, s, i).Some?
            && s.phases[i].v == LaterValue(reqs, s, i, Own(reqs, init.heap, s, i).value)
  {
    EndHistory(reqs, init, schedule);
    HistoryReads(reqs, init.heap, Run(reqs, init, schedule).value, i);
  }

  /** The reply that running the second calls as whole requests would give. */
  ghost predicate ReplyIsSerial(reqs: seq<R.Request>, st: MemState, s: State, i: nat)
    requires HasReply(reqs, s, i)
  {
    var answer := SerialAnswer(reqs, st, s.log, i, s.phases[i].at);
    answer.Some? && s.phases[i].v == answer.value.GetValue()
  }

  /** What was written between the second call and the reply comes to nothing. */
  ghost predicate NothingNew(reqs: seq<R.Request>, s: State, i: nat, own: Reading)
    requires HasReply(reqs, s, i)
  {
    match own
    case Counter(_) => Congruent(DeltasTo(reqs, Between(reqs, s, i), s.phases[i].obj), 0)
    case Gauge(g) => LastGauge(reqs, Between(reqs, s, i), s.phases[i].obj, g) == g
  }

  lemma {:induction false} SameValueIff(reqs: seq<R.Request>, s: State, i: nat, own: Reading)
    requires HasReply(reqs, s, i)
    ensures LaterValue(reqs, s, i, own) == own.GetValue() <==> NothingNew(reqs, s, i, own)
    ensures (forall w :: w in Between(reqs, s, i) ==> w.obj != Some(s.phases[i].obj)) ==> NothingNew(reqs, s, i, own)
  {
    var ws, o := Between(reqs, s, i), s.phases[i].obj;
    if own.Counter? {
      SameWrapIff(own.c, DeltasTo(reqs, ws, o));
      WrapIsTheCongruentInt64(own.c, own.c);
    }
    if forall w :: w in ws ==> w.obj != Some(o) {
      Untouched(reqs, ws, o);
    }
  }

  lemma {:induction false} Untouched(reqs: seq<R.Request>, ws: seq<Write>, o: nat)
    requires InRangeLog(reqs, ws) && forall w :: w in ws ==> w.obj != Some(o)
    ensures DeltasTo(reqs, ws, o) == 0 && forall g :: LastGauge(reqs, ws, o, g) == g
  {
    if ws != [] {
      var w, rest := ws[|ws| - 1], ws[..|ws| - 1];
      assert InRangeLog(reqs, rest) && w in ws;
      Untouched(reqs, rest, o);
    }
  }

  /** Without races a reply is the serial one exactly when the deltas written to
      the counter between the handler's own second call and the reading of the
      reply cancel out, or the gauge holds the same value again; in particular
      when nothing was written to the object in between. */
  lemma {:induction false} ReplyIsSerialIff(reqs: seq<R.Request>, init: State, schedule: seq<nat>, i: nat)
    requires Initial(reqs, init) && Run(reqs, init, schedule).Some? && i < |reqs|
    requires Run(reqs, init, schedule).value.phases[i].Replied?
    requires InRangeLog(reqs, Run(reqs, init, schedule).value.log)
    requires RaceFree(reqs, MemState(Values(init).store, false), Run(reqs, init, schedule).value.log)
    ensures var s, st := Run(reqs, init, schedule).value, MemState(Values(init).store, false);
            && HasReply(reqs, s, i) && Own(reqs, init.heap, s, i).Some?
            && (ReplyIsSerial(reqs, st, s, i) <==> NothingNew(reqs, s, i, Own(reqs, init.heap, s, i).value))
            && ((forall w :: w in Between(reqs, s, i) ==> w.obj != Some(s.phases[i].obj)) ==>
                  ReplyIsSerial(reqs, st, s, i))
  {
    InitInv(reqs, init);
    RunKeepsInv(reqs, init, init, schedule);
    SerialIffInState(reqs, init, Run(reqs, init, schedule).value, i);
  }

  lemma {:induction false} SerialIffInState(reqs: seq<R.Request>, init: State, s: State, i: nat)
    requires Inv(reqs, init, s) && i < |reqs| && s.phases[i].Replied?
    requires RaceFree(reqs, MemState(Values(init).store, false), s.log)
    ensures HasReply(reqs, s, i) && Own(reqs, init.heap, s, i).Some?
    ensures s.log[s.phases[i].at - 1].i == i && s.log[s.phases[i].at - 1].obj == Some(s.phases[i].obj)
    ensures ReplyIsSerial(reqs, MemState(Values(init).store, false), s, i)
            <==> NothingNew(reqs, s, i, Own(reqs, init.heap, s, i).value)
    ensures (forall w :: w in Between(reqs, s, i) ==> w.obj != Some(s.phases[i].obj)) ==>
              ReplyIsSerial(reqs, MemState(Values(init).store, false), s, i)
  {
    assert InTurn(reqs, MemState(Values(init).store, false), init.heap, s, i);
    HistoryReads(reqs, init.heap, s, i);
    SameValueIff(reqs, s, i, Own(reqs, init.heap, s, i).value);
  }
}
