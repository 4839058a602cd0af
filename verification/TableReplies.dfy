// Replies of concurrent requests over the table: the handler updates the copy it
// got from its SELECT and answers with that, whatever has happened to the row in
// between.

module TableReplies {
  import opened Wrappers
  import opened Int64
  import opened Models
  import opened AbstractStore
  import opened Database
  import opened Refinement
  import T = TableRequests
  import F = TableFirstWrites
  import R = Requests

  /** History: `from` and `upto` are the numbers of successful requests when the
      SELECT ran and when its own second statement had. */
  datatype Phase =
    | Start
    | Got(copy: Option<Reading>, from: nat)
    | Replied(v: Any, from: nat, upto: nat)
    | Stopped(out: Outcome)

  datatype State = State(t: Table, phases: seq<Phase>, log: seq<nat>)

  function Init(reqs: seq<R.Request>, t: Table): State {
    State(t, seq(|reqs|, _ => Start), [])
  }

  /** What the handler answers: its copy with its own value, or the new metric. */
  function Reply(q: R.Request, copy: Option<Reading>): Any {
    if copy.None? then q.v
    else match UpdateRule(copy.value, q.v)
      case None => Nil
      case Some(r) => r.GetValue()
  }

  function Step(reqs: seq<R.Request>, s: State, i: nat): Option<State>
    requires |s.phases| == |reqs|
  {
    if i >= |reqs| then None
    else match s.phases[i]
      case Start =>
        var p := match T.GetPhase(s.t, reqs[i].id)
          case Got(copy) => Got(copy, |s.log|)
          case Ended(out) => Stopped(out)
          case Start => Start;
        Some(s.(phases := s.phases[i := p]))
      case Got(copy, from) =>
        var r := T.SecondCall(s.t, reqs[i], copy);
        if r.out.Done? then
          Some(State(r.t, s.phases[i := Replied(Reply(reqs[i], copy), from, |s.log| + 1)], s.log + [i]))
        else Some(State(r.t, s.phases[i := Stopped(r.out)], s.log))
      case Replied(_, _, _) => None
      case Stopped(_) => None
  }

  function Run(reqs: seq<R.Request>, s: State, schedule: seq<nat>): Option<State>
    requires |s.phases| == |reqs|
    decreases schedule
  {
    if schedule == [] then Some(s)
    else
      match Step(reqs, s, schedule[0])
      case None => None
      case Some(s') => Run(reqs, s', schedule[1..])
  }

  // ---------- The model without replies ----------

  function PlainPhase(p: Phase): T.Phase {
    match p
    case Start => T.Start
    case Got(copy, _) => T.Got(copy)
    case Replied(_, _, _) => T.Ended(Done)
    case Stopped(out) => T.Ended(out)
  }

  function Plain(s: State): T.State {
    T.State(s.t, seq(|s.phases|, n requires 0 <= n < |s.phases| => PlainPhase(s.phases[n])), s.log)
  }

  lemma {:induction false} StepIsPlainStep(reqs: seq<R.Request>, s: State, s': State, i: nat)
    requires |s.phases| == |reqs| && Step(reqs, s, i) == Some(s')
    ensures T.Step(reqs, Plain(s), i) == Some(Plain(s'))
  {
    assert Plain(s').phases == Plain(s).phases[i := PlainPhase(s'.phases[i])];
    assert s.phases[i].Got? && !s'.phases[i].Replied? ==> s.log + [] == s'.log;
  }

  /** Replies change nothing: every run is a run of the model without them. */
  lemma {:induction false} RunIsPlainRun(reqs: seq<R.Request>, s: State, schedule: seq<nat>)
    requires |s.phases| == |reqs| && Run(reqs, s, schedule).Some?
    ensures T.Run(reqs, Plain(s), schedule) == Some(Plain(Run(reqs, s, schedule).value))
    decreases schedule
  {
    if schedule != [] {
      StepIsPlainStep(reqs, s, Step(reqs, s, schedule[0]).value, schedule[0]);
      RunIsPlainRun(reqs, Step(reqs, s, schedule[0]).value, schedule[1..]);
    }
  }

  /** A request nobody interrupts is answered with what the next Get returns, whether
      it updated a row or inserted one, if the column holds its name; otherwise it
      ends as the serial request does. */
  lemma {:induction false} AloneAnswersRow(reqs: seq<R.Request>, s: State, i: nat)
    requires |s.phases| == |reqs| && i < |reqs| && s.phases[i].Start? && Storable(reqs[i].id)
    ensures var q, mid := reqs[i], Step(reqs, s, i).value;
            var e := if mid.phases[i].Stopped? then mid else Step(reqs, mid, i).value;
            var r := DbRequestSpec(s.t, q.id, q.mtype, q.v);
            && e.t == r.t
            && (if r.out.Done? then
                  && e.phases[i].Replied? && q.id in e.t && ReadOne(e.t[q.id]).Some?
                  && e.phases[i].v == ReadOne(e.t[q.id]).value.GetValue()
                else e.phases[i] == Stopped(r.out))
  {
  }

  // ---------- What a reply contains ----------

  predicate InRangeLog(reqs: seq<R.Request>, log: seq<nat>) {
    forall n :: 0 <= n < |log| ==> log[n] < |reqs|
  }

  /** The deltas for `k` of a stretch of successful requests. */
  function Sum(reqs: seq<R.Request>, ws: seq<nat>, k: string): int
    requires InRangeLog(reqs, ws)
  {
    if ws == [] then 0
    else Sum(reqs, ws[..|ws| - 1], k) + R.Delta(reqs[ws[|ws| - 1]], k)
  }

  lemma {:induction false} SumSnoc(reqs: seq<R.Request>, ws: seq<nat>, i: nat, k: string)
    requires InRangeLog(reqs, ws) && i < |reqs|
    ensures InRangeLog(reqs, ws + [i]) && Sum(reqs, ws + [i], k) == Sum(reqs, ws, k) + R.Delta(reqs[i], k)
  {
    assert (ws + [i])[..|ws|] == ws;
  }

  lemma {:induction false} SumAppend(reqs: seq<R.Request>, us: seq<nat>, ws: seq<nat>, k: string)
    requires InRangeLog(reqs, us) && InRangeLog(reqs, ws)
    ensures InRangeLog(reqs, us + ws) && Sum(reqs, us + ws, k) == Sum(reqs, us, k) + Sum(reqs, ws, k)
    decreases |ws|
  {
    if ws == [] {
      assert us + ws == us;
    } else {
      var i, rest := ws[|ws| - 1], ws[..|ws| - 1];
      assert us + ws == (us + rest) + [i] && ws == rest + [i];
      SumAppend(reqs, us, rest, k);
      SumSnoc(reqs, us + rest, i, k);
    }
  }

  /** The row of a counter that was there, after the first `n` successes. */
  function RowAt(reqs: seq<R.Request>, t0: Table, log: seq<nat>, n: nat, k: string): int
    requires k in t0 && t0[k].counter.Some? && InRangeLog(reqs, log) && n <= |log|
  {
    t0[k].counter.value + Sum(reqs, log[..n], k)
  }

  /** Request `i` on the counter `k`: what it has read and answered. */
  ghost predicate ReplyInv(reqs: seq<R.Request>, t0: Table, log: seq<nat>, i: nat, p: Phase, k: string)
    requires k in t0 && t0[k].counter.Some? && InRangeLog(reqs, log) && i < |reqs|
  {
    match p
    case Start => true
    case Got(copy, from) =>
      from <= |log| && copy.Some? && copy.value.Counter? && copy.value.c == RowAt(reqs, t0, log, from, k)
    case Replied(v, from, upto) =>
      && from < upto <= |log| && log[upto - 1] == i
      && InRange(RowAt(reqs, t0, log, upto, k))
      && v == Int(Wrap(RowAt(reqs, t0, log, from, k) + R.Delta(reqs[i], k)))
    case Stopped(_) => true
  }

  ghost predicate Setting(reqs: seq<R.Request>, t0: Table, isCounter: string -> bool, k: string) {
    SteadyTable(t0, isCounter) && T.SteadyRequests(reqs, isCounter) && k in t0 && isCounter(k)
  }

  /** Each success is logged once. */
  ghost predicate Once(s: State) {
    && (forall n :: 0 <= n < |s.log| ==> s.log[n] < |s.phases| && s.phases[s.log[n]].Replied?)
    && (forall m, n :: 0 <= m < n < |s.log| ==> s.log[m] != s.log[n])
  }

  ghost predicate Inv(reqs: seq<R.Request>, t0: Table, s: State, k: string)
    requires k in t0 && t0[k].counter.Some?
  {
    && |s.phases| == |reqs| && InRangeLog(reqs, s.log) && Once(s)
    && k in s.t && s.t[k].counter.Some? && s.t[k].counter.value == RowAt(reqs, t0, s.log, |s.log|, k)
    && forall i :: 0 <= i < |reqs| && reqs[i].id == k ==> ReplyInv(reqs, t0, s.log, i, s.phases[i], k)
  }

  lemma {:induction false} PastStays(reqs: seq<R.Request>, t0: Table, log: seq<nat>, j: nat, i: nat, p: Phase,
                                     k: string)
    requires k in t0 && t0[k].counter.Some? && InRangeLog(reqs, log) && i < |reqs| && j < |reqs|
    requires ReplyInv(reqs, t0, log, i, p, k)
    ensures InRangeLog(reqs, log + [j]) && ReplyInv(reqs, t0, log + [j], i, p, k)
  {
    assert forall n :: 0 <= n <= |log| ==> (log + [j])[..n] == log[..n];
  }

  /** What the model without replies says of a request that is about to write. */
  ghost predicate MayWrite(reqs: seq<R.Request>, t0: Table, s: State, i: nat, isCounter: string -> bool) {
    && |s.phases| == |reqs| && i < |reqs| && s.phases[i].Got? && SteadyTable(s.t, isCounter)
    && SteadyValue(reqs[i].id, reqs[i].mtype, reqs[i].v, isCounter)
    && (s.phases[i].copy.None? ==> reqs[i].id !in t0)
    && (s.phases[i].copy.Some? ==> reqs[i].id in s.t && (s.phases[i].copy.value.Counter? <==> isCounter(reqs[i].id)))
  }

  lemma {:induction false} PlainMayWrite(reqs: seq<R.Request>, t0: Table, s: State, i: nat, isCounter: string -> bool)
    requires |s.phases| == |reqs| && i < |reqs| && s.phases[i].Got?
    requires T.SteadyRequests(reqs, isCounter) && T.Inv(reqs, t0, Plain(s), isCounter)
    ensures MayWrite(reqs, t0, s, i, isCounter)
  {
    assert reqs[i] in reqs && Plain(s).phases[i] == T.Got(s.phases[i].copy);
  }

  /** The second statement and the row of `k`. */
  lemma {:induction false} SuccessAndRow(t: Table, q: R.Request, copy: Option<Reading>, isCounter: string -> bool,
                                         k: string)
    requires SteadyTable(t, isCounter) && SteadyValue(q.id, q.mtype, q.v, isCounter) && k in t && isCounter(k)
    requires copy.Some? ==> q.id in t && (copy.value.Counter? <==> isCounter(q.id))
    requires q.id == k ==> copy.Some?
    ensures var r := T.SecondCall(t, q, copy);
            && k in r.t && r.t[k].counter.Some?
            && r.t[k].counter.value == t[k].counter.value + if r.out.Done? then R.Delta(q, k) else 0
  {
    T.SecondCallEffect(t, q, copy, isCounter);
  }

  lemma {:induction false} OnceGrows(s: State, s': State, i: nat)
    requires Once(s) && i < |s.phases| == |s'.phases| && s.phases[i].Got? && s'.phases[i].Replied?
    requires s'.phases[i := s.phases[i]] == s.phases && s'.log == s.log + [i]
    ensures Once(s')
  {
    forall n | 0 <= n < |s.log|
      ensures s.log[n] != i && s.log[n] < |s'.phases| && s'.phases[s.log[n]] == s.phases[s.log[n]]
    {
      assert s.phases[s.log[n]].Replied?;
      assert s'.phases[i := s.phases[i]][s.log[n]] == s.phases[s.log[n]];
    }
  }

  lemma {:induction false} SuccessKeepsInv(reqs: seq<R.Request>, t0: Table, s: State, s': State, i: nat,
                                           isCounter: string -> bool, k: string)
    requires k in t0 && t0[k].counter.Some? && isCounter(k) && Inv(reqs, t0, s, k)
    requires MayWrite(reqs, t0, s, i, isCounter) && Step(reqs, s, i) == Some(s') && s'.phases[i].Replied?
    ensures Inv(reqs, t0, s', k)
  {
    SuccessAndRow(s.t, reqs[i], s.phases[i].copy, isCounter, k);
    SumSnoc(reqs, s.log, i, k);
    assert s.log[..|s.log|] == s.log && s'.log[..|s'.log|] == s'.log;
    assert s'.phases[i := s.phases[i]] == s.phases;
    OnceGrows(s, s', i);
    forall j | 0 <= j < |reqs| && reqs[j].id == k
      ensures ReplyInv(reqs, t0, s'.log, j, s'.phases[j], k)
    {
      if j == i {
        NewReply(reqs, t0, s, s', i, k);
      } else {
        PastStays(reqs, t0, s.log, i, j, s.phases[j], k);
        assert s'.phases[j] == s.phases[j];
      }
    }
  }

  lemma {:induction false} NewReply(reqs: seq<R.Request>, t0: Table, s: State, s': State, i: nat, k: string)
    requires k in t0 && t0[k].counter.Some? && |s.phases| == |reqs| && InRangeLog(reqs, s.log)
    requires i < |reqs| && reqs[i].id == k && s.phases[i].Got? && ReplyInv(reqs, t0, s.log, i, s.phases[i], k)
    requires reqs[i].v.Int? && Step(reqs, s, i) == Some(s') && s'.phases[i].Replied?
    requires k in s'.t && s'.t[k].counter.Some? && InRangeLog(reqs, s'.log)
    requires s'.t[k].counter.value == RowAt(reqs, t0, s'.log, |s'.log|, k)
    ensures ReplyInv(reqs, t0, s'.log, i, s'.phases[i], k)
  {
    assert s'.log[..s.phases[i].from] == s.log[..s.phases[i].from];
  }

  lemma {:induction false} SecondKeepsInv(reqs: seq<R.Request>, t0: Table, s: State, s': State, i: nat,
                                          isCounter: string -> bool, k: string)
    requires k in t0 && t0[k].counter.Some? && isCounter(k) && Inv(reqs, t0, s, k)
    requires MayWrite(reqs, t0, s, i, isCounter) && Step(reqs, s, i) == Some(s')
    ensures Inv(reqs, t0, s', k)
  {
    if s'.phases[i].Replied? {
      SuccessKeepsInv(reqs, t0, s, s', i, isCounter, k);
    } else {
      SuccessAndRow(s.t, reqs[i], s.phases[i].copy, isCounter, k);
      OnceStays(s, s', i);
    }
  }

  lemma {:induction false} OnceStays(s: State, s': State, i: nat)
    requires Once(s) && i < |s.phases| == |s'.phases| && !s.phases[i].Replied?
    requires s'.phases == s.phases[i := s'.phases[i]] && s'.log == s.log
    ensures Once(s')
  {
    forall n | 0 <= n < |s.log|
      ensures s.log[n] < |s'.phases| && s'.phases[s.log[n]].Replied?
    {
      assert s.phases[s.log[n]].Replied?;
    }
  }

  lemma {:induction false} GetKeepsInv(reqs: seq<R.Request>, t0: Table, s: State, s': State, i: nat,
                                       isCounter: string -> bool, k: string)
    requires k in t0 && t0[k].counter.Some? && isCounter(k) && Inv(reqs, t0, s, k) && SteadyTable(s.t, isCounter)
    requires i < |reqs| && s.phases[i].Start? && Step(reqs, s, i) == Some(s')
    ensures Inv(reqs, t0, s', k)
  {
    OnceStays(s, s', i);
    assert s.log[..|s.log|] == s.log && RowOK(s.t[k]);
  }

  lemma {:induction false} RunKeepsInv(reqs: seq<R.Request>, t0: Table, s: State, schedule: seq<nat>,
                                       isCounter: string -> bool, k: string)
    requires Setting(reqs, t0, isCounter, k) && t0[k].counter.Some? && Inv(reqs, t0, s, k)
    requires T.Inv(reqs, t0, Plain(s), isCounter) && Run(reqs, s, schedule).Some?
    ensures Inv(reqs, t0, Run(reqs, s, schedule).value, k)
    decreases schedule
  {
    if schedule != [] {
      var i := schedule[0];
      var s' := Step(reqs, s, i).value;
      StepIsPlainStep(reqs, s, s', i);
      if s.phases[i].Got? {
        PlainMayWrite(reqs, t0, s, i, isCounter);
        SecondKeepsInv(reqs, t0, s, s', i, isCounter, k);
        T.SecondCallKeepsInv(reqs, t0, Plain(s), Plain(s'), i, isCounter);
      } else {
        GetKeepsInv(reqs, t0, s, s', i, isCounter, k);
        T.GetKeepsInv(reqs, t0, Plain(s), Plain(s'), i, isCounter);
      }
      RunKeepsInv(reqs, t0, s', schedule[1..], isCounter, k);
    }
  }

  lemma {:induction false} EndInv(reqs: seq<R.Request>, t0: Table, schedule: seq<nat>, isCounter: string -> bool,
                                  k: string)
    requires Setting(reqs, t0, isCounter, k) && Run(reqs, Init(reqs, t0), schedule).Some?
    ensures t0[k].counter.Some? && Inv(reqs, t0, Run(reqs, Init(reqs, t0), schedule).value, k)
  {
    T.InitInv(reqs, t0, isCounter);
    assert Plain(Init(reqs, t0)) == T.Init(reqs, t0) && RowOK(t0[k]);
    RunKeepsInv(reqs, t0, Init(reqs, t0), schedule, isCounter, k);
  }

  // ---------- Main results ----------

  /** The successes between a SELECT and its own UPDATE. */
  ghost function Missed(s: State, i: nat): seq<nat>
    requires i < |s.phases| && s.phases[i].Replied? && s.phases[i].from < s.phases[i].upto <= |s.log|
  {
    s.log[s.phases[i].from..s.phases[i].upto - 1]
  }

  ghost predicate HasReply(reqs: seq<R.Request>, s: State, i: nat) {
    && |s.phases| == |reqs| && InRangeLog(reqs, s.log) && i < |reqs| && s.phases[i].Replied?
    && s.phases[i].from < s.phases[i].upto <= |s.log| && s.log[s.phases[i].upto - 1] == i
    && InRangeLog(reqs, Missed(s, i))
  }

  /** The reply is the row right after the request's own UPDATE. */
  ghost predicate ReplyIsRow(reqs: seq<R.Request>, t0: Table, s: State, i: nat)
    requires HasReply(reqs, s, i) && reqs[i].id in t0 && t0[reqs[i].id].counter.Some?
  {
    s.phases[i].v == Int(Wrap(RowAt(reqs, t0, s.log, s.phases[i].upto, reqs[i].id)))
  }

  lemma {:induction false} RowSplits(reqs: seq<R.Request>, t0: Table, log: seq<nat>, from: nat, upto: nat, k: string)
    requires k in t0 && t0[k].counter.Some? && InRangeLog(reqs, log) && from < upto <= |log|
    ensures InRangeLog(reqs, log[from..upto - 1]) && log[upto - 1] < |reqs|
    ensures RowAt(reqs, t0, log, upto, k)
         == RowAt(reqs, t0, log, from, k) + Sum(reqs, log[from..upto - 1], k) + R.Delta(reqs[log[upto - 1]], k)
  {
    var last := log[upto - 1];
    assert log[..upto] == log[..upto - 1] + [last] && log[..upto - 1] == log[..from] + log[from..upto - 1];
    SumAppend(reqs, log[..from], log[from..upto - 1], k);
    SumSnoc(reqs, log[..upto - 1], last, k);
  }

  /** What a reply says, what the row holds right after the request's own UPDATE,
      and when the two are the same. */
  ghost predicate ReplySays(reqs: seq<R.Request>, t0: Table, s: State, i: nat) {
    && HasReply(reqs, s, i) && reqs[i].id in t0 && t0[reqs[i].id].counter.Some?
    && var k, p, missed := reqs[i].id, s.phases[i], Sum(reqs, Missed(s, i), reqs[i].id);
       var said := RowAt(reqs, t0, s.log, p.from, k) + R.Delta(reqs[i], k);
       && p.v == Int(Wrap(said))
       && RowAt(reqs, t0, s.log, p.upto, k) == said + missed
       && (ReplyIsRow(reqs, t0, s, i) <==> Congruent(missed, 0))
  }

  lemma {:induction false} SameRowIff(said: int, row: int, missed: int)
    requires row == said + missed
    ensures Int(Wrap(said)) == Int(Wrap(row)) <==> Congruent(missed, 0)
  {
    SameWrapIff(said, missed);
  }

  lemma {:induction false} HasItsReply(reqs: seq<R.Request>, t0: Table, s: State, i: nat)
    requires |s.phases| == |reqs| && InRangeLog(reqs, s.log) && i < |reqs| && s.phases[i].Replied?
    requires reqs[i].id in t0 && t0[reqs[i].id].counter.Some?
    requires ReplyInv(reqs, t0, s.log, i, s.phases[i], reqs[i].id)
    ensures HasReply(reqs, s, i)
  {
  }

  lemma {:induction false} ReplyInState(reqs: seq<R.Request>, t0: Table, s: State, i: nat)
    requires |s.phases| == |reqs| && InRangeLog(reqs, s.log) && i < |reqs| && s.phases[i].Replied?
    requires reqs[i].id in t0 && t0[reqs[i].id].counter.Some?
    requires ReplyInv(reqs, t0, s.log, i, s.phases[i], reqs[i].id)
    ensures ReplySays(reqs, t0, s, i)
  {
    var k, p := reqs[i].id, s.phases[i];
    HasItsReply(reqs, t0, s, i);
    RowSplits(reqs, t0, s.log, p.from, p.upto, k);
    var said, missed := RowAt(reqs, t0, s.log, p.from, k) + R.Delta(reqs[i], k), Sum(reqs, Missed(s, i), k);
    SameRowIff(said, RowAt(reqs, t0, s.log, p.upto, k), missed);
  }

  /** A reply over the table is the row as the request's SELECT saw it plus its own
      delta. Right after its UPDATE the row also has what others have added since:
      the reply is that row exactly when those deltas cancel out. */
  lemma {:induction false} ReplyMissesOthers(reqs: seq<R.Request>, t0: Table, schedule: seq<nat>, i: nat,
                                             isCounter: string -> bool)
    requires i < |reqs| && Setting(reqs, t0, isCounter, reqs[i].id) && Run(reqs, Init(reqs, t0), schedule).Some?
    requires var s := Run(reqs, Init(reqs, t0), schedule).value; i < |s.phases| && s.phases[i].Replied?
    ensures ReplySays(reqs, t0, Run(reqs, Init(reqs, t0), schedule).value, i)
  {
    EndInv(reqs, t0, schedule, isCounter, reqs[i].id);
    ReplyInState(reqs, t0, Run(reqs, Init(reqs, t0), schedule).value, i);
  }

  /** In this run every client of the counter `k` is answered with the row. */
  ghost predicate AnswersAreRows(reqs: seq<R.Request>, t0: Table, schedule: seq<nat>, k: string)
    requires k in t0 && t0[k].counter.Some?
  {
    Run(reqs, Init(reqs, t0), schedule).Some? ==>
      var s := Run(reqs, Init(reqs, t0), schedule).value;
      && |s.phases| == |reqs|
      && forall i :: 0 <= i < |reqs| && s.phases[i].Replied? && reqs[i].id == k ==>
           HasReply(reqs, s, i) && ReplyIsRow(reqs, t0, s, i)
  }

  lemma {:induction false} NothingMissed(reqs: seq<R.Request>, ws: seq<nat>, k: string)
    requires InRangeLog(reqs, ws) && forall n :: 0 <= n < |ws| ==> R.Delta(reqs[ws[n]], k) == 0
    ensures Sum(reqs, ws, k) == 0
  {
    if ws != [] {
      NothingMissed(reqs, ws[..|ws| - 1], k);
    }
  }

  lemma {:induction false} QuietReply(reqs: seq<R.Request>, t0: Table, s: State, i: nat, k: string)
    requires k in t0 && t0[k].counter.Some? && |s.phases| == |reqs| && InRangeLog(reqs, s.log)
    requires i < |reqs| && reqs[i].id == k && s.phases[i].Replied? && ReplyInv(reqs, t0, s.log, i, s.phases[i], k)
    requires forall m, n :: 0 <= m < n < |s.log| ==> s.log[m] != s.log[n]
    requires R.Callers(reqs, k) <= 1 || R.NoDeltas(reqs, k)
    ensures HasReply(reqs, s, i) && ReplyIsRow(reqs, t0, s, i)
  {
    ReplyInState(reqs, t0, s, i);
    MissedIsQuiet(reqs, s.log, s.phases[i].from, s.phases[i].upto, i, k);
    NoneMissedIsRow(reqs, t0, s, i);
  }

  lemma {:induction false} NoneMissedIsRow(reqs: seq<R.Request>, t0: Table, s: State, i: nat)
    requires ReplySays(reqs, t0, s, i) && Sum(reqs, Missed(s, i), reqs[i].id) == 0
    ensures ReplyIsRow(reqs, t0, s, i)
  {
    assert Congruent(0, 0);
  }

  /** The successes between are those of others. */
  lemma {:induction false} MissedIsQuiet(reqs: seq<R.Request>, log: seq<nat>, from: nat, upto: nat, i: nat, k: string)
    requires InRangeLog(reqs, log) && from < upto <= |log| && log[upto - 1] == i && i < |reqs| && reqs[i].id == k
    requires forall m, n :: 0 <= m < n < |log| ==> log[m] != log[n]
    requires R.Callers(reqs, k) <= 1 || R.NoDeltas(reqs, k)
    ensures InRangeLog(reqs, log[from..upto - 1]) && Sum(reqs, log[from..upto - 1], k) == 0
  {
    var ws := log[from..upto - 1];
    forall n | 0 <= n < |ws|
      ensures R.Delta(reqs[ws[n]], k) == 0
    {
      assert ws[n] == log[from + n] && log[from + n] != log[upto - 1];
      OtherIsQuiet(reqs, i, ws[n], k);
    }
    NothingMissed(reqs, ws, k);
  }

  lemma {:induction false} OtherIsQuiet(reqs: seq<R.Request>, i: nat, j: nat, k: string)
    requires i < |reqs| && j < |reqs| && i != j && reqs[i].id == k
    requires R.Callers(reqs, k) <= 1 || R.NoDeltas(reqs, k)
    ensures R.Delta(reqs[j], k) == 0
  {
    assert reqs[j] in reqs;
    if reqs[j].id == k {
      F.TwoCount(reqs, k, i, j);
    }
  }

  /** A second call that room lets through. */
  lemma {:induction false} Succeeds(reqs: seq<R.Request>, t0: Table, schedule: seq<nat>, s: State, i: nat,
                                    isCounter: string -> bool, k: string)
    requires Setting(reqs, t0, isCounter, k) && T.HasRoom(reqs, t0, k)
    requires Run(reqs, Init(reqs, t0), schedule) == Some(s) && |s.phases| == |reqs|
    requires i < |reqs| && reqs[i].id == k
    requires s.phases[i].Replied? || (s.phases[i].Stopped? && !s.phases[i].out.Done?)
    ensures s.phases[i].Replied?
  {
    var init := Init(reqs, t0);
    assert Plain(init) == T.Init(reqs, t0);
    RunIsPlainRun(reqs, init, schedule);
    T.InitInv(reqs, t0, isCounter);
    T.RunKeepsInv(reqs, t0, Plain(init), schedule, isCounter);
    T.RoomServesRun(reqs, t0, Plain(init), schedule, isCounter, k);
    assert Plain(s).phases[i] == PlainPhase(s.phases[i]);
  }

  /** One looks, another comes and goes, the first writes. */
  lemma {:induction false} InterruptedReply(reqs: seq<R.Request>, t0: Table, isCounter: string -> bool, k: string,
                                            i: nat, j: nat)
    returns (s: State)
    requires Setting(reqs, t0, isCounter, k) && T.HasRoom(reqs, t0, k)
    requires i < |reqs| && j < |reqs| && i != j && reqs[i].id == reqs[j].id == k
    ensures Run(reqs, Init(reqs, t0), [i, j, j, i]) == Some(s) && |s.phases| == |reqs|
    ensures s.phases[i].Replied? && s.phases[i].from == 0 && s.phases[i].upto == 2 && s.log == [j, i]
  {
    assert reqs[i] in reqs && reqs[j] in reqs && RowOK(t0[k]);
    var init := Init(reqs, t0);
    var s1 := Step(reqs, init, i).value;
    var s2 := Step(reqs, s1, j).value;
    assert s2.phases[i].Got? && s2.phases[j].Got? && s2.t == t0 && s2.log == [];
    var s3 := Step(reqs, s2, j).value;
    s := Step(reqs, s3, i).value;
    assert Run(reqs, s, []) == Some(s) && Run(reqs, s3, []) == Some(s3);
    assert [i][1..] == [] && Run(reqs, s3, [i]) == Some(s);
    assert [j, i][1..] == [i] && Run(reqs, s2, [j, i]) == Some(s);
    assert [j, j, i][1..] == [j, i] && Run(reqs, s1, [j, j, i]) == Some(s);
    assert [i, j, j, i][1..] == [j, j, i];
    assert [j][1..] == [] && Run(reqs, s2, [j]) == Some(s3);
    assert [j, j][1..] == [j] && Run(reqs, s1, [j, j]) == Some(s3);
    assert [i, j, j][1..] == [j, j];
    Succeeds(reqs, t0, [i, j, j], s3, j, isCounter, k);
    Succeeds(reqs, t0, [i, j, j, i], s, i, isCounter, k);
  }

  lemma {:induction false} InterruptedIsNotRow(reqs: seq<R.Request>, t0: Table, isCounter: string -> bool, k: string,
                                               i: nat, j: nat)
    requires Setting(reqs, t0, isCounter, k) && T.HasRoom(reqs, t0, k)
    requires i < |reqs| && j < |reqs| && i != j && reqs[i].id == reqs[j].id == k && R.Delta(reqs[j], k) != 0
    ensures !AnswersAreRows(reqs, t0, [i, j, j, i], k)
  {
    var s := InterruptedReply(reqs, t0, isCounter, k, i, j);
    ReplyMissesOthers(reqs, t0, [i, j, j, i], i, isCounter);
    assert Missed(s, i) == [j] && [j][..0] == [];
    assert Sum(reqs, [j], k) == Sum(reqs, [], k) + R.Delta(reqs[j], k);
    SameWrapIff(0, R.Delta(reqs[j], k));
  }

  /** For a counter with room, every interleaving answers every client with the row
      right after its own UPDATE exactly when at most one request names the counter
      or no request changes it. */
  lemma {:induction false} AnswersAreRowsIff(reqs: seq<R.Request>, t0: Table, isCounter: string -> bool, k: string)
    requires Setting(reqs, t0, isCounter, k) && T.HasRoom(reqs, t0, k)
    ensures (forall schedule :: AnswersAreRows(reqs, t0, schedule, k)) <==>
              R.Callers(reqs, k) <= 1 || R.NoDeltas(reqs, k)
  {
    if R.Callers(reqs, k) <= 1 || R.NoDeltas(reqs, k) {
      forall schedule
        ensures AnswersAreRows(reqs, t0, schedule, k)
      {
        if Run(reqs, Init(reqs, t0), schedule).Some? {
          QuietRun(reqs, t0, schedule, isCounter, k);
        }
      }
    } else {
      var q :| q in reqs && R.Delta(q, k) != 0;
      var j :| 0 <= j < |reqs| && reqs[j] == q;
      var i := R.AnotherCaller(reqs, k, j);
      InterruptedIsNotRow(reqs, t0, isCounter, k, i, j);
    }
  }

  lemma {:induction false} QuietRun(reqs: seq<R.Request>, t0: Table, schedule: seq<nat>, isCounter: string -> bool,
                                    k: string)
    requires Setting(reqs, t0, isCounter, k) && t0[k].counter.Some? && Run(reqs, Init(reqs, t0), schedule).Some?
    requires R.Callers(reqs, k) <= 1 || R.NoDeltas(reqs, k)
    ensures AnswersAreRows(reqs, t0, schedule, k)
  {
    var s := Run(reqs, Init(reqs, t0), schedule).value;
    EndInv(reqs, t0, schedule, isCounter, k);
    forall i | 0 <= i < |reqs| && s.phases[i].Replied? && reqs[i].id == k
      ensures HasReply(reqs, s, i) && ReplyIsRow(reqs, t0, s, i)
    {
      QuietReply(reqs, t0, s, i, k);
    }
  }
}
