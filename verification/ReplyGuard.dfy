// When concurrent clients of UpdateJSON can rely on their replies: a condition on
// the requests alone, whether or not their names are stored yet.

module ReplyGuard {
  import opened Wrappers
  import opened Int64
  import opened Models
  import opened AbstractStore
  import opened Replies
  import R = Requests

  /** Request `b` changes what a client that has just made request `a` reads. */
  predicate Disturbs(a: R.Request, b: R.Request) {
    a.id == b.id && if b.v.Int? then b.v.i != 0 else b.v != a.v
  }

  /** No request disturbs another: those that share a counter bring no deltas,
      those that share a gauge bring one value. */
  ghost predicate Undisturbed(reqs: seq<R.Request>) {
    forall i, j :: 0 <= i < |reqs| && 0 <= j < |reqs| && i != j ==> !Disturbs(reqs[i], reqs[j])
  }

  /** What request `q` leaves under its name when it is the first. */
  function Expected(s0: Store, q: R.Request): Option<Reading> {
    Effect(Lookup(s0, q.id), q)
  }

  // ---------- Kinds ----------

  ghost predicate TypedRequests(reqs: seq<R.Request>, isCounter: string -> bool) {
    forall q :: q in reqs ==> NewMetric(q.mtype, q.v).Some? && (isCounter(q.id) <==> q.v.Int?)
  }

  /** Every object and every request has the kind of its name. */
  ghost predicate Typed(reqs: seq<R.Request>, heap: seq<Cell>, isCounter: string -> bool) {
    && TypedRequests(reqs, isCounter)
    && (forall o :: 0 <= o < |heap| ==> (isCounter(heap[o].name) <==> heap[o].val.Counter?))
  }

  predicate FitsKind(x: Option<Reading>, q: R.Request) {
    NewMetric(q.mtype, q.v).Some? && (x.Some? ==> SameKind(x.value, q.v))
  }

  /** Two requests for one name that do not disturb each other have one effect,
      and having it twice is having it once. */
  lemma {:induction false} CalmPair(x: Option<Reading>, a: R.Request, b: R.Request)
    requires FitsKind(x, a) && FitsKind(x, b) && a.id == b.id && (a.v.Int? <==> b.v.Int?)
    requires !Disturbs(a, b) && !Disturbs(b, a)
    ensures Effect(x, a) == Effect(x, b) && Effect(x, a).Some?
    ensures Effect(Effect(x, a), b) == Effect(x, a)
  {
  }

  // ---------- The serial side ----------

  ghost predicate TypedStore(s: Store, isCounter: string -> bool) {
    forall k :: k in s ==> (isCounter(k) <==> s[k].Counter?)
  }

  lemma {:induction false} SerialOneEffect(st: MemState, q: R.Request)
    requires !st.locked && FitsKind(Lookup(st.store, q.id), q)
    ensures Effect(Lookup(st.store, q.id), q).Some?
    ensures R.SerialOne(st, q).st == MemState(st.store[q.id := Effect(Lookup(st.store, q.id), q).value], false)
  {
  }

  predicate InLog(log: seq<R.Write>, i: nat) {
    exists n :: 0 <= n < |log| && log[n].i == i
  }

  ghost predicate Once(log: seq<R.Write>) {
    forall m, n :: 0 <= m < n < |log| ==> log[m].i != log[n].i
  }

  /** Run whole, in any order, each request leaves what it would leave alone. */
  ghost predicate SerialCalm(reqs: seq<R.Request>, s0: Store, st: MemState, log: seq<R.Write>,
                             isCounter: string -> bool)
  {
    && !st.locked && TypedStore(st.store, isCounter)
    && forall i :: 0 <= i < |reqs| ==>
         if InLog(log, i) then Lookup(st.store, reqs[i].id) == Expected(s0, reqs[i])
         else Effect(Lookup(st.store, reqs[i].id), reqs[i]) == Expected(s0, reqs[i])
  }

  lemma {:induction false} SerialStaysCalm(reqs: seq<R.Request>, s0: Store, log: seq<R.Write>,
                                           isCounter: string -> bool)
    requires TypedRequests(reqs, isCounter) && TypedStore(s0, isCounter) && Undisturbed(reqs)
    requires R.InRangeLog(reqs, log) && Once(log)
    ensures SerialCalm(reqs, s0, R.Serial(reqs, MemState(s0, false), log), log, isCounter)
    decreases |log|
  {
    if log != [] {
      var w, before := log[|log| - 1], log[..|log| - 1];
      assert R.InRangeLog(reqs, before) && w in log;
      SerialStaysCalm(reqs, s0, before, isCounter);
      assert !InLog(before, w.i) by {
        assert forall n :: 0 <= n < |before| ==> before[n].i == log[n].i != log[|log| - 1].i;
      }
      SerialStep(reqs, s0, R.Serial(reqs, MemState(s0, false), before), before, w, isCounter);
      assert log == before + [w];
    }
  }

  lemma {:induction false} InLogSnoc(log: seq<R.Write>, w: R.Write, i: nat)
    ensures InLog(log + [w], i) <==> InLog(log, i) || w.i == i
  {
    if InLog(log, i) {
      var n :| 0 <= n < |log| && log[n].i == i;
      assert (log + [w])[n].i == i;
    }
    assert (log + [w])[|log|] == w;
  }

  lemma {:induction false} SerialStep(reqs: seq<R.Request>, s0: Store, st: MemState, before: seq<R.Write>, w: R.Write,
                                      isCounter: string -> bool)
    requires TypedRequests(reqs, isCounter) && TypedStore(s0, isCounter) && Undisturbed(reqs)
    requires SerialCalm(reqs, s0, st, before, isCounter) && w.i < |reqs| && !InLog(before, w.i)
    ensures SerialCalm(reqs, s0, R.SerialOne(st, reqs[w.i]).st, before + [w], isCounter)
  {
    var j, b, x := w.i, reqs[w.i], Lookup(st.store, reqs[w.i].id);
    assert b in reqs;
    SerialOneEffect(st, b);
    var st' := R.SerialOne(st, b).st;
    forall i | 0 <= i < |reqs|
      ensures if InLog(before + [w], i) then Lookup(st'.store, reqs[i].id) == Expected(s0, reqs[i])
              else Effect(Lookup(st'.store, reqs[i].id), reqs[i]) == Expected(s0, reqs[i])
    {
      InLogSnoc(before, w, i);
      if i != j && reqs[i].id == b.id {
        assert reqs[i] in reqs && !Disturbs(reqs[i], b) && !Disturbs(b, reqs[i]);
        CalmPair(x, b, reqs[i]);
        CalmPair(Lookup(s0, b.id), reqs[i], b);
      }
    }
  }

  // ---------- The objects ----------

  ghost predicate Begun(p: Phase) {
    p.Wrote? || p.Replied? || p.Stopped?
  }

  /** The object a handler for `k` holds: the one that was there, or a new one. */
  ghost predicate RightObject(init: State, k: string, o: nat) {
    if k in init.names then o == init.names[k] else o >= |init.heap|
  }

  /** Request `i` and what it has seen. */
  ghost predicate CalmRequest(reqs: seq<R.Request>, init: State, s: State, i: nat)
    requires Shape(reqs, init) && Shape(reqs, s) && i < |reqs|
  {
    var k, e := reqs[i].id, Expected(Values(init).store, reqs[i]);
    && (match s.phases[i]
        case Start => true
        case Got(None) => k !in init.names
        case Got(Some(o)) => RightObject(init, k, o)
        case Wrote(o, _) => RightObject(init, k, o) && Some(s.heap[o].val) == e
        case Replied(_, _, _, v) => e.Some? && v == e.value.GetValue()
        case Stopped(_) => false)
    && (k in s.names ==> RightObject(init, k, s.names[k]))
    && (k in init.names ==> k in s.names)
    && (k in init.names && !Begun(s.phases[i]) ==> Effect(Some(s.heap[s.names[k]].val), reqs[i]) == e)
  }

  /** A new object holds what every request for its name leaves, and one of them
      has created it. */
  ghost predicate CalmObject(reqs: seq<R.Request>, init: State, s: State, o: nat)
    requires |s.phases| == |reqs| && |init.heap| <= o < |s.heap| && Shape(reqs, init)
  {
    && s.heap[o].name !in init.names
    && (forall i :: 0 <= i < |reqs| && reqs[i].id == s.heap[o].name ==>
          Some(s.heap[o].val) == Expected(Values(init).store, reqs[i]))
    && exists j :: 0 <= j < |reqs| && reqs[j].id == s.heap[o].name && Begun(s.phases[j])
  }

  ghost predicate Calm(reqs: seq<R.Request>, init: State, s: State, isCounter: string -> bool) {
    && Shape(reqs, init) && Shape(reqs, s) && !s.locked && |init.heap| <= |s.heap|
    && Typed(reqs, s.heap, isCounter)
    && (forall i :: 0 <= i < |reqs| ==> CalmRequest(reqs, init, s, i))
    && (forall o :: |init.heap| <= o < |s.heap| ==> CalmObject(reqs, init, s, o))
  }

  lemma {:induction false} InitCalm(reqs: seq<R.Request>, init: State, isCounter: string -> bool)
    requires Initial(reqs, init) && Typed(reqs, init.heap, isCounter)
    ensures Calm(reqs, init, init, isCounter)
  {
  }

  /** An Update leaves its own effect in its object, and changes nothing that
      another request for the name relies on. */
  lemma {:induction false} UpdateIsCalm(reqs: seq<R.Request>, init: State, s: State, i: nat, isCounter: string -> bool)
    requires Calm(reqs, init, s, isCounter) && TypedStore(Values(init).store, isCounter) && Undisturbed(reqs)
    requires i < |reqs| && s.phases[i].Got? && s.phases[i].found.Some?
    ensures reqs[i].id in s.names
    ensures var o := s.names[reqs[i].id];
            var after := Effect(Some(s.heap[o].val), reqs[i]);
            && UpdateRule(s.heap[o].val, reqs[i].v) == after && after == Expected(Values(init).store, reqs[i])
            && (o >= |init.heap| ==> after == Some(s.heap[o].val))
  {
    var k := reqs[i].id;
    assert PhaseShape(reqs[i], s.phases[i], s) && reqs[i] in reqs && CalmRequest(reqs, init, s, i);
    var o := s.names[k];
    assert s.heap[o].name == k;
    if o >= |init.heap| {
      assert CalmObject(reqs, init, s, o);
      var j :| 0 <= j < |reqs| && reqs[j].id == k && Begun(s.phases[j]);
      assert j != i && reqs[j] in reqs && !Disturbs(reqs[j], reqs[i]) && !Disturbs(reqs[i], reqs[j]);
      CalmPair(None, reqs[j], reqs[i]);
    }
  }

  /** What another request for the name expects of the object before and after. */
  lemma {:induction false} OthersStayCalm(reqs: seq<R.Request>, s0: Store, x: Reading, i: nat, j: nat,
                                          isCounter: string -> bool)
    requires TypedRequests(reqs, isCounter) && TypedStore(s0, isCounter) && Undisturbed(reqs)
    requires i < |reqs| && j < |reqs| && i != j && reqs[i].id == reqs[j].id && SameKind(x, reqs[i].v)
    ensures Effect(Some(x), reqs[j]) == Expected(s0, reqs[j]) ==>
              Effect(Effect(Some(x), reqs[i]), reqs[j]) == Expected(s0, reqs[j])
    ensures Some(x) == Expected(s0, reqs[j]) ==> Effect(Some(x), reqs[i]) == Expected(s0, reqs[j])
    ensures Expected(s0, reqs[i]) == Expected(s0, reqs[j])
  {
    assert reqs[i] in reqs && reqs[j] in reqs && !Disturbs(reqs[i], reqs[j]) && !Disturbs(reqs[j], reqs[i]);
    CalmPair(Some(x), reqs[i], reqs[j]);
    CalmPair(Lookup(s0, reqs[j].id), reqs[j], reqs[i]);
  }

  /** The states around an Update: only the object under the name changes. */
  ghost predicate Updated(reqs: seq<R.Request>, s: State, s': State, i: nat) {
    && Shape(reqs, s) && Shape(reqs, s') && i < |reqs| && reqs[i].id in s.names
    && s.phases[i].Got? && s.phases[i].found.Some?
    && var o := s.names[reqs[i].id];
       var after := UpdateRule(s.heap[o].val, reqs[i].v);
       && after.Some?
       && s'.names == s.names && s'.locked == s.locked
       && s'.heap == s.heap[o := s.heap[o].(val := after.value)]
       && s'.phases == s.phases[i := Wrote(s.phases[i].found.value, |s.log| + 1)]
  }

  lemma {:induction false} UpdateKeepsRequest(reqs: seq<R.Request>, init: State, s: State, s': State, i: nat, j: nat,
                                              isCounter: string -> bool)
    requires Calm(reqs, init, s, isCounter) && TypedStore(Values(init).store, isCounter) && Undisturbed(reqs)
    requires Updated(reqs, s, s', i) && j < |reqs|
    ensures CalmRequest(reqs, init, s', j)
  {
    UpdateIsCalm(reqs, init, s, i, isCounter);
    assert CalmRequest(reqs, init, s, i) && CalmRequest(reqs, init, s, j);
    assert PhaseShape(reqs[j], s.phases[j], s) && PhaseShape(reqs[i], s.phases[i], s);
    var o := s.names[reqs[i].id];
    if j != i && reqs[j].id == reqs[i].id {
      assert reqs[i] in reqs && s.heap[o].name == reqs[i].id;
      OthersStayCalm(reqs, Values(init).store, s.heap[o].val, i, j, isCounter);
    } else if j == i && s.phases[i].found.value != o {
      assert CalmObject(reqs, init, s, s.phases[i].found.value);
    }
  }

  lemma {:induction false} UpdateKeepsObject(reqs: seq<R.Request>, init: State, s: State, s': State, i: nat, o: nat,
                                             isCounter: string -> bool)
    requires Calm(reqs, init, s, isCounter) && TypedStore(Values(init).store, isCounter) && Undisturbed(reqs)
    requires Updated(reqs, s, s', i) && |init.heap| <= o < |s'.heap|
    ensures CalmObject(reqs, init, s', o)
  {
    UpdateIsCalm(reqs, init, s, i, isCounter);
    assert CalmObject(reqs, init, s, o);
    var j :| 0 <= j < |reqs| && reqs[j].id == s.heap[o].name && Begun(s.phases[j]);
    assert Begun(s'.phases[j]);
  }

  /** The states around an Insert. */
  ghost predicate Inserted(reqs: seq<R.Request>, s: State, s': State, i: nat) {
    && Shape(reqs, s) && Shape(reqs, s') && i < |reqs| && s.phases[i] == Got(None)
    && NewMetric(reqs[i].mtype, reqs[i].v).Some?
    && s'.names == s.names[reqs[i].id := |s.heap|] && s'.locked == s.locked
    && s'.heap == s.heap + [Cell(reqs[i].id, NewMetric(reqs[i].mtype, reqs[i].v).value)]
    && s'.phases == s.phases[i := Wrote(|s.heap|, |s.log| + 1)]
  }

  lemma {:induction false} InsertKeepsRequest(reqs: seq<R.Request>, init: State, s: State, s': State, i: nat, j: nat,
                                              isCounter: string -> bool)
    requires Calm(reqs, init, s, isCounter) && Inserted(reqs, s, s', i) && j < |reqs|
    ensures CalmRequest(reqs, init, s', j)
  {
    assert CalmRequest(reqs, init, s, i) && CalmRequest(reqs, init, s, j);
    assert PhaseShape(reqs[j], s.phases[j], s);
    assert Lookup(Values(init).store, reqs[i].id) == None;
  }

  lemma {:induction false} InsertKeepsObject(reqs: seq<R.Request>, init: State, s: State, s': State, i: nat, o: nat,
                                             isCounter: string -> bool)
    requires Calm(reqs, init, s, isCounter) && TypedStore(Values(init).store, isCounter) && Undisturbed(reqs)
    requires Inserted(reqs, s, s', i) && |init.heap| <= o < |s'.heap|
    ensures CalmObject(reqs, init, s', o)
  {
    assert CalmRequest(reqs, init, s, i) && reqs[i] in reqs;
    if o < |s.heap| {
      assert CalmObject(reqs, init, s, o);
      var j :| 0 <= j < |reqs| && reqs[j].id == s.heap[o].name && Begun(s.phases[j]);
      assert Begun(s'.phases[j]);
    } else {
      forall j | 0 <= j < |reqs| && reqs[j].id == reqs[i].id
        ensures Some(s'.heap[o].val) == Expected(Values(init).store, reqs[j])
      {
        if j != i {
          assert reqs[j] in reqs && !Disturbs(reqs[i], reqs[j]) && !Disturbs(reqs[j], reqs[i]);
          CalmPair(None, reqs[i], reqs[j]);
        }
      }
      assert Begun(s'.phases[i]);
    }
  }

  /** A second call is one of the two. */
  lemma {:induction false} SecondCallShape(reqs: seq<R.Request>, init: State, s: State, s': State, i: nat,
                                           isCounter: string -> bool)
    requires Calm(reqs, init, s, isCounter) && TypedStore(Values(init).store, isCounter) && Undisturbed(reqs)
    requires i < |reqs| && s.phases[i].Got? && Step(reqs, s, i) == Some(s')
    ensures if s.phases[i].found.Some? then Updated(reqs, s, s', i) else Inserted(reqs, s, s', i)
    ensures Typed(reqs, s'.heap, isCounter)
  {
    assert PhaseShape(reqs[i], s.phases[i], s) && reqs[i] in reqs;
    if s.phases[i].found.Some? {
      UpdateIsCalm(reqs, init, s, i, isCounter);
    }
  }

  lemma {:induction false} SecondCallIsCalm(reqs: seq<R.Request>, init: State, s: State, s': State, i: nat,
                                            isCounter: string -> bool)
    requires Calm(reqs, init, s, isCounter) && TypedStore(Values(init).store, isCounter) && Undisturbed(reqs)
    requires i < |reqs| && s.phases[i].Got? && Step(reqs, s, i) == Some(s')
    ensures Calm(reqs, init, s', isCounter)
  {
    SecondCallShape(reqs, init, s, s', i, isCounter);
    forall j | 0 <= j < |reqs|
      ensures CalmRequest(reqs, init, s', j)
    {
      if s.phases[i].found.Some? {
        UpdateKeepsRequest(reqs, init, s, s', i, j, isCounter);
      } else {
        InsertKeepsRequest(reqs, init, s, s', i, j, isCounter);
      }
    }
    forall o | |init.heap| <= o < |s'.heap|
      ensures CalmObject(reqs, init, s', o)
    {
      if s.phases[i].found.Some? {
        UpdateKeepsObject(reqs, init, s, s', i, o, isCounter);
      } else {
        InsertKeepsObject(reqs, init, s, s', i, o, isCounter);
      }
    }
  }

  /** A Get and a reply change one phase. */
  lemma {:induction false} OtherStepIsCalm(reqs: seq<R.Request>, init: State, s: State, s': State, i: nat,
                                           isCounter: string -> bool)
    requires Calm(reqs, init, s, isCounter)
    requires i < |reqs| && !s.phases[i].Got? && Step(reqs, s, i) == Some(s')
    ensures Calm(reqs, init, s', isCounter)
  {
    assert s'.names == s.names && s'.heap == s.heap && s'.phases == s.phases[i := s'.phases[i]];
    forall j | 0 <= j < |reqs|
      ensures CalmRequest(reqs, init, s', j)
    {
      assert CalmRequest(reqs, init, s, j);
    }
    forall o | |init.heap| <= o < |s'.heap|
      ensures CalmObject(reqs, init, s', o)
    {
      assert CalmObject(reqs, init, s, o);
      var j :| 0 <= j < |reqs| && reqs[j].id == s.heap[o].name && Begun(s.phases[j]);
      assert Begun(s'.phases[j]);
    }
  }

  // ---------- Every request writes once ----------

  ghost predicate Tidy(reqs: seq<R.Request>, s: State) {
    && Shape(reqs, s) && InRangeLog(reqs, s.log)
    && (forall n :: 0 <= n < |s.log| ==> Begun(s.phases[s.log[n].i]))
    && (forall m, n :: 0 <= m < n < |s.log| ==> s.log[m].i != s.log[n].i)
  }

  lemma {:induction false} StepIsTidy(reqs: seq<R.Request>, s: State, s': State, i: nat)
    requires Tidy(reqs, s) && Step(reqs, s, i) == Some(s')
    ensures Tidy(reqs, s')
  {
    if s.phases[i].Got? {
      SecondCallIsLogged(reqs, s, s', i);
      forall n | 0 <= n < |s'.log|
        ensures Begun(s'.phases[s'.log[n].i]) && (n < |s.log| ==> s'.log[n] == s.log[n] && s'.log[n].i != i)
      {
        if n < |s.log| {
          assert Begun(s.phases[s.log[n].i]);
        }
      }
    }
  }

  lemma {:induction false} RunIsCalm(reqs: seq<R.Request>, init: State, s: State, schedule: seq<nat>,
                                     isCounter: string -> bool)
    requires Calm(reqs, init, s, isCounter) && TypedStore(Values(init).store, isCounter) && Undisturbed(reqs)
    requires Tidy(reqs, s) && Run(reqs, s, schedule).Some?
    ensures Calm(reqs, init, Run(reqs, s, schedule).value, isCounter) && Tidy(reqs, Run(reqs, s, schedule).value)
    decreases schedule
  {
    if schedule != [] {
      var i := schedule[0];
      var s' := Step(reqs, s, i).value;
      StepIsTidy(reqs, s, s', i);
      if s.phases[i].Got? {
        SecondCallIsCalm(reqs, init, s, s', i, isCounter);
      } else {
        OtherStepIsCalm(reqs, init, s, s', i, isCounter);
      }
      RunIsCalm(reqs, init, s', schedule[1..], isCounter);
    }
  }

  // ---------- Main result ----------

  /** Every reply of a run is the one its request would have got in its turn. */
  ghost predicate RepliesAreSerial(reqs: seq<R.Request>, init: State, schedule: seq<nat>)
    requires Shape(reqs, init)
  {
    Run(reqs, init, schedule).Some? ==>
      var s := Run(reqs, init, schedule).value;
      forall i :: 0 <= i < |reqs| && s.phases[i].Replied? ==>
        HasReply(reqs, s, i) && ReplyIsSerial(reqs, MemState(Values(init).store, false), s, i)
  }

  lemma {:induction false} HeapTypesStore(reqs: seq<R.Request>, init: State, isCounter: string -> bool)
    requires Shape(reqs, init) && Typed(reqs, init.heap, isCounter)
    ensures TypedStore(Values(init).store, isCounter)
  {
  }

  /** The serial answer of a request that has made its second call. */
  lemma {:induction false} CalmAnswer(reqs: seq<R.Request>, s0: Store, log: seq<Write>, i: nat, at: nat,
                                      isCounter: string -> bool)
    requires TypedRequests(reqs, isCounter) && TypedStore(s0, isCounter) && Undisturbed(reqs)
    requires InRangeLog(reqs, log) && (forall m, n :: 0 <= m < n < |log| ==> log[m].i != log[n].i)
    requires i < |reqs| && 1 <= at <= |log| && log[at - 1].i == i
    ensures SerialAnswer(reqs, MemState(s0, false), log, i, at) == Expected(s0, reqs[i])
  {
    var plain := PlainLog(log);
    PlainLogInRange(reqs, log);
    assert R.InRangeLog(reqs, plain[..at]);
    SerialStaysCalm(reqs, s0, plain[..at], isCounter);
    assert plain[..at][at - 1].i == i;
    assert InLog(plain[..at], i);
  }

  lemma {:induction false} CalmReply(reqs: seq<R.Request>, init: State, s: State, i: nat, isCounter: string -> bool)
    requires Calm(reqs, init, s, isCounter) && Tidy(reqs, s) && History(reqs, init.heap, s)
    requires TypedStore(Values(init).store, isCounter) && Undisturbed(reqs)
    requires i < |reqs| && s.phases[i].Replied?
    ensures HasReply(reqs, s, i) && ReplyIsSerial(reqs, MemState(Values(init).store, false), s, i)
  {
    HistoryReads(reqs, init.heap, s, i);
    assert CalmRequest(reqs, init, s, i);
    CalmAnswer(reqs, Values(init).store, s.log, i, s.phases[i].at, isCounter);
    assert SerialAnswer(reqs, MemState(Values(init).store, false), s.log, i, s.phases[i].at)
        == Expected(Values(init).store, reqs[i]);
  }

  lemma {:induction false} UndisturbedReplies(reqs: seq<R.Request>, init: State, schedule: seq<nat>,
                                              isCounter: string -> bool)
    requires Initial(reqs, init) && Typed(reqs, init.heap, isCounter) && Undisturbed(reqs)
    requires Run(reqs, init, schedule).Some?
    ensures RepliesAreSerial(reqs, init, schedule)
  {
    var s := Run(reqs, init, schedule).value;
    HeapTypesStore(reqs, init, isCounter);
    InitCalm(reqs, init, isCounter);
    RunIsCalm(reqs, init, init, schedule, isCounter);
    EndHistory(reqs, init, schedule);
    forall i | 0 <= i < |reqs| && s.phases[i].Replied?
      ensures HasReply(reqs, s, i) && ReplyIsSerial(reqs, MemState(Values(init).store, false), s, i)
    {
      CalmReply(reqs, init, s, i, isCounter);
    }
  }

  // ---------- A disturbed reply ----------

  lemma {:induction false} FiveSteps(reqs: seq<R.Request>, s0: State, s1: State, s2: State, s3: State, s4: State,
                                     s5: State, i: nat, j: nat)
    requires Shape(reqs, s0) && Step(reqs, s0, i) == Some(s1) && Step(reqs, s1, i) == Some(s2)
    requires Step(reqs, s2, j) == Some(s3) && Step(reqs, s3, j) == Some(s4) && Step(reqs, s4, i) == Some(s5)
    ensures Run(reqs, s0, [i, i, j, j, i]) == Some(s5)
  {
    assert Run(reqs, s5, []) == Some(s5);
    assert [i][1..] == [] && Run(reqs, s4, [i]) == Some(s5);
    assert [j, i][1..] == [i] && Run(reqs, s3, [j, i]) == Some(s5);
    assert [j, j, i][1..] == [j, i] && Run(reqs, s2, [j, j, i]) == Some(s5);
    assert [i, j, j, i][1..] == [j, j, i] && Run(reqs, s1, [i, j, j, i]) == Some(s5);
    assert [i, i, j, j, i][1..] == [i, j, j, i];
  }

  /** The first request alone, up to its reply. */
  lemma {:induction false} FirstAlone(reqs: seq<R.Request>, init: State, isCounter: string -> bool, i: nat)
    returns (mid: State, s: State)
    requires Initial(reqs, init) && Typed(reqs, init.heap, isCounter) && i < |reqs|
    ensures Step(reqs, init, i) == Some(mid) && Shape(reqs, mid) && Step(reqs, mid, i) == Some(s) && Shape(reqs, s)
    ensures !s.locked && Typed(reqs, s.heap, isCounter)
    ensures |s.log| == 1 && s.log[0].i == i && forall j :: 0 <= j < |reqs| && j != i ==> s.phases[j].Start?
    ensures reqs[i].id in s.names && s.phases[i] == Wrote(s.names[reqs[i].id], 1)
    ensures Some(s.heap[s.names[reqs[i].id]].val) == Expected(Values(init).store, reqs[i])
  {
    assert reqs[i] in reqs;
    mid := Step(reqs, init, i).value;
    assert PhaseShape(reqs[i], mid.phases[i], mid);
    s := Step(reqs, mid, i).value;
  }

  /** The second request whole, while the first has not read its reply. */
  lemma {:induction false} SecondWhole(reqs: seq<R.Request>, s: State, isCounter: string -> bool, i: nat, j: nat)
    returns (mid: State, e: State)
    requires Shape(reqs, s) && !s.locked && Typed(reqs, s.heap, isCounter)
    requires i < |reqs| && j < |reqs| && i != j && reqs[i].id == reqs[j].id && s.phases[j].Start?
    requires reqs[i].id in s.names && s.phases[i] == Wrote(s.names[reqs[i].id], 1) && |s.log| == 1
    ensures Step(reqs, s, j) == Some(mid) && Shape(reqs, mid) && Step(reqs, mid, j) == Some(e) && Shape(reqs, e)
    ensures |e.log| == 2 && e.log[0] == s.log[0] && e.phases[i] == s.phases[i]
    ensures var o := s.names[reqs[i].id];
            o < |s.heap| && o < |e.heap| && UpdateRule(s.heap[o].val, reqs[j].v) == Some(e.heap[o].val)
  {
    assert reqs[j] in reqs;
    mid := Step(reqs, s, j).value;
    e := Step(reqs, mid, j).value;
  }

  /** A disturbing request shows: its effect on what the first has left differs. */
  lemma {:induction false} DisturbanceShows(x: Option<Reading>, a: R.Request, b: R.Request)
    requires FitsKind(x, a) && FitsKind(x, b) && (a.v.Int? <==> b.v.Int?) && Disturbs(a, b)
    ensures Effect(x, a).Some? && UpdateRule(Effect(x, a).value, b.v) != Effect(x, a)
  {
    if a.v.Int? {
      SameWrapIff(Effect(x, a).value.c, b.v.i);
      WrapIsTheCongruentInt64(Effect(x, a).value.c, Effect(x, a).value.c);
    }
  }

  /** The third step of a request, the reading of its own object. */
  lemma {:induction false} ReadsReply(reqs: seq<R.Request>, s: State, i: nat, o: nat, at: nat)
    returns (e: State)
    requires Shape(reqs, s) && i < |reqs| && s.phases[i] == Wrote(o, at) && o < |s.heap|
    ensures Step(reqs, s, i) == Some(e) && e.log == s.log
    ensures e.phases[i] == Replied(o, at, |s.log|, s.heap[o].val.GetValue())
  {
    e := Step(reqs, s, i).value;
  }

  lemma {:induction false} DisturbedValue(reqs: seq<R.Request>, s0: Store, isCounter: string -> bool, i: nat, j: nat,
                                          own: Reading, last: Reading)
    requires TypedRequests(reqs, isCounter) && TypedStore(s0, isCounter)
    requires i < |reqs| && j < |reqs| && Disturbs(reqs[i], reqs[j])
    requires Some(own) == Expected(s0, reqs[i]) && UpdateRule(own, reqs[j].v) == Some(last)
    ensures last.GetValue() != own.GetValue()
  {
    assert reqs[i] in reqs && reqs[j] in reqs;
    DisturbanceShows(Lookup(s0, reqs[i].id), reqs[i], reqs[j]);
    assert last != own && (last.Counter? <==> own.Counter?);
  }

  lemma {:induction false} DisturbedReply(reqs: seq<R.Request>, init: State, isCounter: string -> bool, i: nat, j: nat)
    returns (s: State)
    requires Initial(reqs, init) && Typed(reqs, init.heap, isCounter)
    requires i < |reqs| && j < |reqs| && i != j && Disturbs(reqs[i], reqs[j])
    ensures Run(reqs, init, [i, i, j, j, i]) == Some(s)
    ensures s.phases[i].Replied? && s.phases[i].at == 1 && |s.log| == 2 && s.log[0].i == i
    ensures var e := Expected(Values(init).store, reqs[i]); e.Some? && s.phases[i].v != e.value.GetValue()
  {
    assert reqs[i] in reqs && reqs[j] in reqs;
    HeapTypesStore(reqs, init, isCounter);
    var s1, s2 := FirstAlone(reqs, init, isCounter, i);
    var s3, s4 := SecondWhole(reqs, s2, isCounter, i, j);
    s := ReadsReply(reqs, s4, i, s2.names[reqs[i].id], 1);
    FiveSteps(reqs, init, s1, s2, s3, s4, s, i, j);
    var o := s2.names[reqs[i].id];
    DisturbedValue(reqs, Values(init).store, isCounter, i, j, s2.heap[o].val, s4.heap[o].val);
  }

  lemma {:induction false} DisturbedIsNotSerial(reqs: seq<R.Request>, init: State, isCounter: string -> bool,
                                                i: nat, j: nat)
    requires Initial(reqs, init) && Typed(reqs, init.heap, isCounter)
    requires i < |reqs| && j < |reqs| && i != j && Disturbs(reqs[i], reqs[j])
    ensures !RepliesAreSerial(reqs, init, [i, i, j, j, i])
  {
    var s := DisturbedReply(reqs, init, isCounter, i, j);
    EndHistory(reqs, init, [i, i, j, j, i]);
    HistoryReads(reqs, init.heap, s, i);
    HeapTypesStore(reqs, init, isCounter);
    FirstAnswer(reqs, Values(init).store, s.log, i, isCounter);
    assert !ReplyIsSerial(reqs, MemState(Values(init).store, false), s, i);
  }

  /** The serial answer of the first writer. */
  lemma {:induction false} FirstAnswer(reqs: seq<R.Request>, s0: Store, log: seq<Write>, i: nat,
                                       isCounter: string -> bool)
    requires TypedRequests(reqs, isCounter) && TypedStore(s0, isCounter)
    requires i < |reqs| && InRangeLog(reqs, log) && |log| >= 1 && log[0].i == i
    ensures SerialAnswer(reqs, MemState(s0, false), log, i, 1) == Expected(s0, reqs[i])
  {
    var plain, st := PlainLog(log), MemState(s0, false);
    PlainLogInRange(reqs, log);
    assert plain[..1] == [plain[0]] && [plain[0]][..0] == [] && reqs[i] in reqs;
    assert R.Serial(reqs, st, []) == st;
    SerialOneEffect(st, reqs[i]);
  }

  /** In every interleaving every client gets the reply of a serial execution
      exactly when no two requests for one name disturb each other. */
  lemma {:induction false} RepliesAreSerialIff(reqs: seq<R.Request>, init: State, isCounter: string -> bool)
    requires Initial(reqs, init) && Typed(reqs, init.heap, isCounter)
    ensures (forall schedule :: RepliesAreSerial(reqs, init, schedule)) <==> Undisturbed(reqs)
  {
    if Undisturbed(reqs) {
      forall schedule
        ensures RepliesAreSerial(reqs, init, schedule)
      {
        if Run(reqs, init, schedule).Some? {
          UndisturbedReplies(reqs, init, schedule, isCounter);
        }
      }
    } else {
      var i, j :| 0 <= i < |reqs| && 0 <= j < |reqs| && i != j && Disturbs(reqs[i], reqs[j]);
      DisturbedIsNotSerial(reqs, init, isCounter, i, j);
    }
  }
}
