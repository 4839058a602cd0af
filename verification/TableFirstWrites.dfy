// First writes to a counter through the table: exactly when every interleaving of
// the requests that name it leaves the sum of their deltas, although the upsert
// stores twice its own delta on conflict and the table refuses overflow.

module TableFirstWrites {
  import opened Wrappers
  import opened Int64
  import opened Models
  import opened AbstractStore
  import opened Database
  import opened Refinement
  import opened TableRequests
  import R = Requests

  function RowVal(t: Table, k: string): Option<int> {
    if k in t && t[k].counter.Some? then Some(t[k].counter.value) else None
  }

  ghost predicate Complete(s: State) {
    forall i :: 0 <= i < |s.phases| ==> s.phases[i].Ended?
  }

  ghost predicate Completes(reqs: seq<R.Request>, t0: Table, schedule: seq<nat>) {
    Run(reqs, Init(reqs, t0), schedule).Some? && Complete(Run(reqs, Init(reqs, t0), schedule).value)
  }

  /** What the row should hold when all requests have ended. */
  function Expected(reqs: seq<R.Request>, k: string): Option<int> {
    if R.Callers(reqs, k) == 0 then None else Some(R.Total(reqs, k))
  }

  ghost predicate EndsRight(reqs: seq<R.Request>, t0: Table, schedule: seq<nat>, k: string) {
    Completes(reqs, t0, schedule) ==>
      RowVal(Run(reqs, Init(reqs, t0), schedule).value.t, k) == Expected(reqs, k)
  }

  ghost predicate AlwaysRight(reqs: seq<R.Request>, t0: Table, k: string) {
    forall schedule :: EndsRight(reqs, t0, schedule, k)
  }

  ghost predicate SameDeltas(reqs: seq<R.Request>, k: string, d: int) {
    forall q :: q in reqs && q.id == k ==> R.Delta(q, k) == d
  }

  /** One caller at most; or no deltas; or two callers with one delta whose double
      the column holds, so that doubling on conflict happens to be right. */
  ghost predicate Safe(reqs: seq<R.Request>, k: string) {
    || R.Callers(reqs, k) <= 1
    || R.NoDeltas(reqs, k)
    || (R.Callers(reqs, k) == 2 && InRange(R.Total(reqs, k)) && exists d :: SameDeltas(reqs, k, d))
  }

  ghost predicate Setting(reqs: seq<R.Request>, t0: Table, isCounter: string -> bool, k: string) {
    SteadyTable(t0, isCounter) && SteadyRequests(reqs, isCounter) && k !in t0 && isCounter(k)
  }

  // ---------- One second statement and the row ----------

  /** The row of `k` after the second statement of a caller. */
  function NextVal(v: Option<int>, d: int, found: bool): Option<int> {
    if v.None? then Some(d)
    else if found then (if InRange(v.value + d) then Some(v.value + d) else v)
    else if InRange(d + d) then Some(d + d)
    else v
  }

  function Refused(v: Option<int>, d: int, found: bool): bool {
    v.Some? && !InRange(if found then v.value + d else d + d)
  }

  lemma {:induction false} CallerRow(t: Table, q: R.Request, copy: Option<Reading>, isCounter: string -> bool)
    requires SteadyTable(t, isCounter) && SteadyValue(q.id, q.mtype, q.v, isCounter) && isCounter(q.id)
    requires copy.Some? ==> q.id in t && copy.value.Counter?
    ensures var r, v := SecondCall(t, q, copy), RowVal(t, q.id);
            && RowVal(r.t, q.id) == NextVal(v, R.Delta(q, q.id), copy.Some?)
            && r.out == if Refused(v, R.Delta(q, q.id), copy.Some?) then Failed else Done
  {
  }

  lemma {:induction false} OtherRow(t: Table, q: R.Request, copy: Option<Reading>, isCounter: string -> bool, k: string)
    requires SteadyTable(t, isCounter) && SteadyValue(q.id, q.mtype, q.v, isCounter) && q.id != k
    requires copy.Some? ==> q.id in t
    ensures RowVal(SecondCall(t, q, copy).t, k) == RowVal(t, k)
  {
  }

  lemma {:induction false} StepRow(reqs: seq<R.Request>, t0: Table, s: State, s': State, i: nat,
                                   isCounter: string -> bool, k: string)
    requires Inv(reqs, t0, s, isCounter) && SteadyRequests(reqs, isCounter) && isCounter(k)
    requires i < |reqs| && s.phases[i].Got? && Step(reqs, s, i) == Some(s')
    ensures Inv(reqs, t0, s', isCounter) && s'.phases == s.phases[i := s'.phases[i]]
    ensures reqs[i].id != k ==> RowVal(s'.t, k) == RowVal(s.t, k) && s'.phases[i].Ended?
    ensures reqs[i].id == k ==>
              var v, d, found := RowVal(s.t, k), R.Delta(reqs[i], k), s.phases[i].copy.Some?;
              && RowVal(s'.t, k) == NextVal(v, d, found)
              && s'.phases[i] == Ended(if Refused(v, d, found) then Failed else Done)
  {
    assert reqs[i] in reqs;
    SecondCallKeepsInv(reqs, t0, s, s', i, isCounter);
    if reqs[i].id == k {
      CallerRow(s.t, reqs[i], s.phases[i].copy, isCounter);
    } else {
      OtherRow(s.t, reqs[i], s.phases[i].copy, isCounter, k);
    }
  }

  // ---------- Safe requests ----------

  function DoneCallers(reqs: seq<R.Request>, phases: seq<Phase>, k: string): nat
    requires |reqs| == |phases|
  {
    if reqs == [] then 0
    else (if phases[0] == Ended(Done) && reqs[0].id == k then 1 else 0) + DoneCallers(reqs[1..], phases[1..], k)
  }

  lemma {:induction false} DoneCallersUpdate(reqs: seq<R.Request>, phases: seq<Phase>, i: nat, p: Phase, k: string)
    requires |reqs| == |phases| && i < |reqs| && phases[i] != Ended(Done)
    ensures DoneCallers(reqs, phases[i := p], k)
         == DoneCallers(reqs, phases, k) + if p == Ended(Done) && reqs[i].id == k then 1 else 0
  {
    if i == 0 {
      assert phases[i := p][1..] == phases[1..];
    } else {
      assert phases[i := p][1..] == phases[1..][i - 1 := p];
      DoneCallersUpdate(reqs[1..], phases[1..], i - 1, p, k);
    }
  }

  lemma {:induction false} DoneCallersBounds(reqs: seq<R.Request>, phases: seq<Phase>, k: string)
    requires |reqs| == |phases|
    ensures DoneCallers(reqs, phases, k) <= R.Callers(reqs, k)
    ensures (forall i :: 0 <= i < |phases| && reqs[i].id == k ==> phases[i] == Ended(Done)) ==>
              DoneCallers(reqs, phases, k) == R.Callers(reqs, k)
    ensures (forall i :: 0 <= i < |phases| ==> !phases[i].Ended?) ==> DoneCallers(reqs, phases, k) == 0
    ensures DoneCallers(reqs, phases, k) == 0 ==> DoneTotal(reqs, phases, k) == 0
  {
    if reqs != [] {
      DoneCallersBounds(reqs[1..], phases[1..], k);
    }
  }

  function Times(n: nat, d: int): int {
    if n == 0 then 0 else d + Times(n - 1, d)
  }

  lemma {:induction false} TimesZero(n: nat)
    ensures Times(n, 0) == 0
  {
    if n > 0 {
      TimesZero(n - 1);
    }
  }

  lemma {:induction false} SameDeltasTotals(reqs: seq<R.Request>, phases: seq<Phase>, k: string, d: int)
    requires |reqs| == |phases| && SameDeltas(reqs, k, d)
    ensures DoneTotal(reqs, phases, k) == Times(DoneCallers(reqs, phases, k), d)
    ensures R.Total(reqs, k) == Times(R.Callers(reqs, k), d)
  {
    if reqs != [] {
      assert reqs[0] in reqs && forall q :: q in reqs[1..] ==> q in reqs;
      SameDeltasTotals(reqs[1..], phases[1..], k, d);
    }
  }

  /** The row that the sum so far calls for. */
  function SumVal(reqs: seq<R.Request>, phases: seq<Phase>, k: string): Option<int>
    requires |reqs| == |phases|
  {
    if DoneCallers(reqs, phases, k) == 0 then None else Some(DoneTotal(reqs, phases, k))
  }

  /** The row holds the sum of what has succeeded, and nothing was refused. */
  ghost predicate SumInv(reqs: seq<R.Request>, t0: Table, s: State, isCounter: string -> bool, k: string) {
    && Inv(reqs, t0, s, isCounter) && Served(reqs, s, k)
    && RowVal(s.t, k) == SumVal(reqs, s.phases, k)
  }

  /** What a safe caller adds, from the sum so far. */
  lemma {:induction false} SafeNext(reqs: seq<R.Request>, phases: seq<Phase>, i: nat, k: string)
    requires |reqs| == |phases| && i < |reqs| && phases[i] != Ended(Done) && reqs[i].id == k && Safe(reqs, k)
    requires DoneCallers(reqs, phases, k) > 0
    ensures var d, sum := R.Delta(reqs[i], k), DoneTotal(reqs, phases, k);
            d + d == sum + d && InRange(sum + d)
  {
    var after := phases[i := Ended(Done)];
    DoneCallersUpdate(reqs, phases, i, Ended(Done), k);
    DoneCallersBounds(reqs, after, k);
    assert reqs[i] in reqs;
    if R.NoDeltas(reqs, k) {
      SameDeltasTotals(reqs, phases, k, 0);
      TimesZero(DoneCallers(reqs, phases, k));
    } else {
      var d :| SameDeltas(reqs, k, d);
      SameDeltasTotals(reqs, phases, k, d);
      assert Times(1, d) == d + Times(0, d) && Times(2, d) == d + Times(1, d);
    }
  }

  lemma {:induction false} SumNext(n: nat, sum: int, d: int, found: bool)
    requires n == 0 ==> sum == 0
    requires n > 0 ==> d + d == sum + d && InRange(sum + d)
    ensures var v := if n == 0 then None else Some(sum);
            !Refused(v, d, found) && NextVal(v, d, found) == Some(sum + d)
  {
  }

  lemma {:induction false} SumValUpdate(reqs: seq<R.Request>, phases: seq<Phase>, i: nat, p: Phase, k: string)
    requires |reqs| == |phases| && i < |reqs| && phases[i] != Ended(Done)
    ensures SumVal(reqs, phases[i := p], k)
         == if reqs[i].id == k && p == Ended(Done) then Some(DoneTotal(reqs, phases, k) + R.Delta(reqs[i], k))
            else SumVal(reqs, phases, k)
  {
    DoneTotalUpdate(reqs, phases, i, p, k);
    DoneCallersUpdate(reqs, phases, i, p, k);
  }

  /** A safe caller is not refused and the row goes on holding the sum. */
  lemma {:induction false} SafeVal(reqs: seq<R.Request>, phases: seq<Phase>, i: nat, found: bool, k: string)
    requires |reqs| == |phases| && i < |reqs| && phases[i] != Ended(Done) && reqs[i].id == k && Safe(reqs, k)
    ensures var v, d := SumVal(reqs, phases, k), R.Delta(reqs[i], k);
            !Refused(v, d, found) && NextVal(v, d, found) == Some(DoneTotal(reqs, phases, k) + d)
  {
    var n, sum := DoneCallers(reqs, phases, k), DoneTotal(reqs, phases, k);
    if n > 0 {
      SafeNext(reqs, phases, i, k);
    }
    DoneCallersBounds(reqs, phases, k);
    SumNext(n, sum, R.Delta(reqs[i], k), found);
  }

  lemma {:induction false} SafeSecond(reqs: seq<R.Request>, t0: Table, s: State, s': State, i: nat,
                                      isCounter: string -> bool, k: string)
    requires Setting(reqs, t0, isCounter, k) && Safe(reqs, k) && SumInv(reqs, t0, s, isCounter, k)
    requires i < |reqs| && s.phases[i].Got? && Step(reqs, s, i) == Some(s')
    ensures SumInv(reqs, t0, s', isCounter, k)
  {
    StepRow(reqs, t0, s, s', i, isCounter, k);
    if reqs[i].id == k {
      SafeVal(reqs, s.phases, i, s.phases[i].copy.Some?, k);
    }
    SumValUpdate(reqs, s.phases, i, s'.phases[i], k);
    assert RowVal(s'.t, k) == SumVal(reqs, s'.phases, k);
    StillServed(reqs, s, s', i, k);
  }

  lemma {:induction false} StillServed(reqs: seq<R.Request>, s: State, s': State, i: nat, k: string)
    requires Served(reqs, s, k) && i < |reqs| == |s'.phases| && s'.phases == s.phases[i := s'.phases[i]]
    requires reqs[i].id == k ==> s'.phases[i] != Ended(Failed)
    ensures Served(reqs, s', k)
  {
  }

  lemma {:induction false} SafeRun(reqs: seq<R.Request>, t0: Table, s: State, schedule: seq<nat>,
                                   isCounter: string -> bool, k: string)
    requires Setting(reqs, t0, isCounter, k) && Safe(reqs, k) && SumInv(reqs, t0, s, isCounter, k)
    requires Run(reqs, s, schedule).Some?
    ensures SumInv(reqs, t0, Run(reqs, s, schedule).value, isCounter, k)
    decreases schedule
  {
    if schedule != [] {
      var i := schedule[0];
      var s' := Step(reqs, s, i).value;
      if s.phases[i].Got? {
        SafeSecond(reqs, t0, s, s', i, isCounter, k);
      } else {
        GetKeepsInv(reqs, t0, s, s', i, isCounter);
        DoneTotalUpdate(reqs, s.phases, i, s'.phases[i], k);
        DoneCallersUpdate(reqs, s.phases, i, s'.phases[i], k);
      }
      SafeRun(reqs, t0, s', schedule[1..], isCounter, k);
    }
  }

  lemma {:induction false} SumIsExpected(reqs: seq<R.Request>, t0: Table, s: State, isCounter: string -> bool,
                                         k: string)
    requires SumInv(reqs, t0, s, isCounter, k) && Complete(s)
    ensures RowVal(s.t, k) == Expected(reqs, k)
  {
    DoneCallersBounds(reqs, s.phases, k);
    DoneTotalBounds(reqs, s.phases, k);
  }

  lemma {:induction false} SafeIsRight(reqs: seq<R.Request>, t0: Table, schedule: seq<nat>,
                                       isCounter: string -> bool, k: string)
    requires Setting(reqs, t0, isCounter, k) && Safe(reqs, k)
    ensures EndsRight(reqs, t0, schedule, k)
  {
    if Completes(reqs, t0, schedule) {
      var init := Init(reqs, t0);
      InitInv(reqs, t0, isCounter);
      DoneCallersBounds(reqs, init.phases, k);
      SafeRun(reqs, t0, init, schedule, isCounter, k);
      SumIsExpected(reqs, t0, Run(reqs, init, schedule).value, isCounter, k);
    }
  }

  // ---------- Chosen interleavings ----------

  /** Everybody but `late` looks before anybody writes. */
  lemma {:induction false} GetAllBut(reqs: seq<R.Request>, t0: Table, isCounter: string -> bool, late: set<nat>, n: nat)
    returns (schedule: seq<nat>, s: State)
    requires SteadyTable(t0, isCounter) && SteadyRequests(reqs, isCounter) && n <= |reqs|
    ensures Run(reqs, Init(reqs, t0), schedule) == Some(s)
    ensures Inv(reqs, t0, s, isCounter) && s.t == t0
    ensures forall m :: 0 <= m < |reqs| ==>
              if m < n && m !in late then s.phases[m].Got? && (s.phases[m].copy.None? <==> reqs[m].id !in t0)
              else s.phases[m].Start?
  {
    if n == 0 {
      schedule, s := [], Init(reqs, t0);
      InitInv(reqs, t0, isCounter);
    } else {
      schedule, s := GetAllBut(reqs, t0, isCounter, late, n - 1);
      if n - 1 !in late {
        var e := GetOne(reqs, t0, s, n - 1, isCounter);
        RunAppend(reqs, Init(reqs, t0), schedule, [n - 1]);
        schedule, s := schedule + [n - 1], e;
      }
    }
  }

  lemma {:induction false} GetOne(reqs: seq<R.Request>, t0: Table, s: State, i: nat, isCounter: string -> bool)
    returns (e: State)
    requires Inv(reqs, t0, s, isCounter) && SteadyRequests(reqs, isCounter) && i < |reqs| && s.phases[i].Start?
    ensures Run(reqs, s, [i]) == Some(e) && Inv(reqs, t0, e, isCounter) && e.t == s.t
    ensures e.phases == s.phases[i := e.phases[i]]
    ensures e.phases[i].Got? && (e.phases[i].copy.None? <==> reqs[i].id !in s.t)
  {
    assert reqs[i] in reqs;
    e := Step(reqs, s, i).value;
    GetKeepsInv(reqs, t0, s, e, i, isCounter);
    assert [i][1..] == [] && Run(reqs, e, []) == Some(e);
  }

  lemma {:induction false} SecondOne(reqs: seq<R.Request>, t0: Table, s: State, i: nat, isCounter: string -> bool,
                                     k: string)
    returns (e: State)
    requires Inv(reqs, t0, s, isCounter) && SteadyRequests(reqs, isCounter) && isCounter(k)
    requires i < |reqs| && s.phases[i].Got?
    ensures Run(reqs, s, [i]) == Some(e) && Inv(reqs, t0, e, isCounter)
    ensures e.phases == s.phases[i := e.phases[i]] && e.phases[i].Ended?
    ensures RowVal(e.t, k)
         == if reqs[i].id == k then NextVal(RowVal(s.t, k), R.Delta(reqs[i], k), s.phases[i].copy.Some?)
            else RowVal(s.t, k)
  {
    e := Step(reqs, s, i).value;
    StepRow(reqs, t0, s, e, i, isCounter, k);
    assert [i][1..] == [] && Run(reqs, e, []) == Some(e);
  }

  /** All of them but `late` and those that have ended write, one by one. */
  ghost predicate Waiting(reqs: seq<R.Request>, s: State, late: set<nat>, n: nat) {
    |s.phases| == |reqs| &&
    forall m :: 0 <= m < |reqs| && m !in late ==> s.phases[m].Ended? || (m >= n && s.phases[m].Got?)
  }

  /** A caller that waits to insert more than half of what the column holds: once
      there is a row its upsert is refused. */
  predicate Big(q: R.Request, k: string) {
    q.id == k && !InRange(R.Delta(q, k) + R.Delta(q, k))
  }

  lemma {:induction false} SecondsBut(reqs: seq<R.Request>, t0: Table, s: State, isCounter: string -> bool, k: string,
                                      late: set<nat>, n: nat)
    returns (tail: seq<nat>, e: State)
    requires Inv(reqs, t0, s, isCounter) && SteadyRequests(reqs, isCounter) && isCounter(k)
    requires n <= |reqs| && Waiting(reqs, s, late, n)
    ensures Run(reqs, s, tail) == Some(e) && Inv(reqs, t0, e, isCounter)
    ensures forall m :: 0 <= m < |reqs| ==> if m in late then e.phases[m] == s.phases[m] else e.phases[m].Ended?
    ensures RowVal(s.t, k).Some? ==> RowVal(e.t, k).Some?
    ensures (exists m :: 0 <= m < |reqs| && m !in late && reqs[m].id == k && s.phases[m].Got?) ==>
              RowVal(e.t, k).Some?
    ensures RowVal(s.t, k).Some? && BigWaiters(reqs, s, late, k) ==> RowVal(e.t, k) == RowVal(s.t, k)
    decreases |reqs| - n
  {
    if n == |reqs| {
      tail, e := [], s;
    } else if n in late || s.phases[n].Ended? {
      tail, e := SecondsBut(reqs, t0, s, isCounter, k, late, n + 1);
    } else {
      var mid := SecondOne(reqs, t0, s, n, isCounter, k);
      tail, e := SecondsBut(reqs, t0, mid, isCounter, k, late, n + 1);
      RunAppend(reqs, s, [n], tail);
      tail := [n] + tail;
    }
  }

  ghost predicate BigWaiters(reqs: seq<R.Request>, s: State, late: set<nat>, k: string) {
    |s.phases| == |reqs| &&
    forall m :: 0 <= m < |reqs| && m !in late && reqs[m].id == k && s.phases[m].Got? ==>
      s.phases[m].copy.None? && Big(reqs[m], k)
  }

  /** One more request writes at the end of a schedule. */
  lemma {:induction false} ThenSecond(reqs: seq<R.Request>, t0: Table, schedule: seq<nat>, s: State, i: nat,
                                      isCounter: string -> bool, k: string)
    returns (longer: seq<nat>, e: State)
    requires Run(reqs, Init(reqs, t0), schedule) == Some(s)
    requires Inv(reqs, t0, s, isCounter) && SteadyRequests(reqs, isCounter) && isCounter(k)
    requires i < |reqs| && s.phases[i].Got?
    ensures Run(reqs, Init(reqs, t0), longer) == Some(e) && Inv(reqs, t0, e, isCounter)
    ensures e.phases == s.phases[i := e.phases[i]] && e.phases[i].Ended?
    ensures RowVal(e.t, k)
         == if reqs[i].id == k then NextVal(RowVal(s.t, k), R.Delta(reqs[i], k), s.phases[i].copy.Some?)
            else RowVal(s.t, k)
  {
    e := SecondOne(reqs, t0, s, i, isCounter, k);
    longer := schedule + [i];
    RunAppend(reqs, Init(reqs, t0), schedule, [i]);
  }

  ghost predicate OthersBig(reqs: seq<R.Request>, k: string, first: nat) {
    forall m :: 0 <= m < |reqs| && m != first && reqs[m].id == k ==> Big(reqs[m], k)
  }

  /** All look, then `first` writes, then everybody else but `last`. */
  lemma {:induction false} BeforeLast(reqs: seq<R.Request>, t0: Table, isCounter: string -> bool, k: string,
                                      first: nat, last: nat)
    returns (schedule: seq<nat>, s: State)
    requires Setting(reqs, t0, isCounter, k) && first < |reqs| && last < |reqs| && first != last
    requires reqs[first].id == reqs[last].id == k
    ensures Run(reqs, Init(reqs, t0), schedule) == Some(s) && Inv(reqs, t0, s, isCounter)
    ensures forall m :: 0 <= m < |reqs| ==> if m == last then s.phases[m] == Got(None) else s.phases[m].Ended?
    ensures RowVal(s.t, k).Some? && (OthersBig(reqs, k, first) ==> RowVal(s.t, k) == Some(R.Delta(reqs[first], k)))
  {
    var gets, s1 := GetAllBut(reqs, t0, isCounter, {}, |reqs|);
    var more, s2 := ThenSecond(reqs, t0, gets, s1, first, isCounter, k);
    assert OthersBig(reqs, k, first) ==> BigWaiters(reqs, s2, {last}, k);
    var rest;
    rest, s := SecondsBut(reqs, t0, s2, isCounter, k, {last}, 0);
    schedule := more + rest;
    RunAppend(reqs, Init(reqs, t0), more, rest);
  }

  /** ... and `last` at the end. */
  lemma {:induction false} LastWins(reqs: seq<R.Request>, t0: Table, isCounter: string -> bool, k: string,
                                    first: nat, last: nat)
    returns (schedule: seq<nat>, e: State)
    requires Setting(reqs, t0, isCounter, k) && first < |reqs| && last < |reqs| && first != last
    requires reqs[first].id == reqs[last].id == k
    ensures Run(reqs, Init(reqs, t0), schedule) == Some(e) && Complete(e)
    ensures var d := R.Delta(reqs[last], k);
            && (InRange(d + d) ==> RowVal(e.t, k) == Some(d + d))
            && (!InRange(d + d) && OthersBig(reqs, k, first) ==> RowVal(e.t, k) == Some(R.Delta(reqs[first], k)))
  {
    var before, s := BeforeLast(reqs, t0, isCounter, k, first, last);
    schedule, e := ThenSecond(reqs, t0, before, s, last, isCounter, k);
  }

  /** All but `late` look, and all but `last` of them write. */
  lemma {:induction false} MostWrite(reqs: seq<R.Request>, t0: Table, isCounter: string -> bool, k: string,
                                     other: nat, last: nat, late: nat)
    returns (schedule: seq<nat>, s: State)
    requires Setting(reqs, t0, isCounter, k) && other < |reqs| && last < |reqs| && late < |reqs|
    requires other != last && other != late && last != late && reqs[other].id == reqs[last].id == k
    ensures Run(reqs, Init(reqs, t0), schedule) == Some(s) && Inv(reqs, t0, s, isCounter)
    ensures s.phases[last] == Got(None) && s.phases[late].Start? && RowVal(s.t, k).Some?
    ensures forall m :: 0 <= m < |reqs| && m != last && m != late ==> s.phases[m].Ended?
  {
    var gets, s1 := GetAllBut(reqs, t0, isCounter, {late}, |reqs|);
    assert s1.phases[other].Got? && other !in {last, late};
    var rest;
    rest, s := SecondsBut(reqs, t0, s1, isCounter, k, {last, late}, 0);
    schedule := gets + rest;
    RunAppend(reqs, Init(reqs, t0), gets, rest);
  }

  /** ... then `last`, */
  lemma {:induction false} BeforeLate(reqs: seq<R.Request>, t0: Table, isCounter: string -> bool, k: string,
                                      other: nat, last: nat, late: nat)
    returns (schedule: seq<nat>, s: State)
    requires Setting(reqs, t0, isCounter, k) && other < |reqs| && last < |reqs| && late < |reqs|
    requires other != last && other != late && last != late && reqs[other].id == reqs[last].id == k
    requires InRange(R.Delta(reqs[last], k) + R.Delta(reqs[last], k))
    ensures Run(reqs, Init(reqs, t0), schedule) == Some(s) && Inv(reqs, t0, s, isCounter)
    ensures forall m :: 0 <= m < |reqs| ==> if m == late then s.phases[m].Start? else s.phases[m].Ended?
    ensures RowVal(s.t, k) == Some(R.Delta(reqs[last], k) + R.Delta(reqs[last], k))
  {
    var most, s1 := MostWrite(reqs, t0, isCounter, k, other, last, late);
    schedule, s := ThenSecond(reqs, t0, most, s1, last, isCounter, k);
  }

  /** ... and `late` looks and writes when everybody else has ended. */
  lemma {:induction false} LateAdds(reqs: seq<R.Request>, t0: Table, isCounter: string -> bool, k: string,
                                    other: nat, last: nat, late: nat)
    returns (schedule: seq<nat>, e: State)
    requires Setting(reqs, t0, isCounter, k) && other < |reqs| && last < |reqs| && late < |reqs|
    requires other != last && other != late && last != late && reqs[other].id == reqs[last].id == reqs[late].id == k
    requires var d := R.Delta(reqs[last], k); InRange(d + d) && InRange(d + d + R.Delta(reqs[late], k))
    ensures Run(reqs, Init(reqs, t0), schedule) == Some(e) && Complete(e)
    ensures var d := R.Delta(reqs[last], k); RowVal(e.t, k) == Some(d + d + R.Delta(reqs[late], k))
  {
    var before, s := BeforeLate(reqs, t0, isCounter, k, other, last, late);
    var mid := GetOne(reqs, t0, s, late, isCounter);
    RunAppend(reqs, Init(reqs, t0), before, [late]);
    assert mid.phases[late].copy.Some?;
    schedule, e := ThenSecond(reqs, t0, before + [late], mid, late, isCounter, k);
  }

  // ---------- What it takes to be always right ----------

  lemma {:induction false} RightOf(reqs: seq<R.Request>, t0: Table, k: string, schedule: seq<nat>, e: State)
    requires AlwaysRight(reqs, t0, k) && Run(reqs, Init(reqs, t0), schedule) == Some(e) && Complete(e)
    ensures RowVal(e.t, k) == Expected(reqs, k)
  {
    assert EndsRight(reqs, t0, schedule, k);
  }

  lemma {:induction false} RightLast(reqs: seq<R.Request>, t0: Table, isCounter: string -> bool, k: string,
                                     first: nat, last: nat)
    requires Setting(reqs, t0, isCounter, k) && first < |reqs| && last < |reqs| && first != last
    requires reqs[first].id == reqs[last].id == k && R.Callers(reqs, k) >= 1 && AlwaysRight(reqs, t0, k)
    ensures var d := R.Delta(reqs[last], k);
            && (InRange(d + d) ==> R.Total(reqs, k) == d + d)
            && (!InRange(d + d) && OthersBig(reqs, k, first) ==> R.Total(reqs, k) == R.Delta(reqs[first], k))
  {
    var schedule, e := LastWins(reqs, t0, isCounter, k, first, last);
    RightOf(reqs, t0, k, schedule, e);
  }

  lemma {:induction false} RightLate(reqs: seq<R.Request>, t0: Table, isCounter: string -> bool, k: string,
                                     other: nat, last: nat, late: nat)
    requires Setting(reqs, t0, isCounter, k) && other < |reqs| && last < |reqs| && late < |reqs|
    requires other != last && other != late && last != late && reqs[other].id == reqs[last].id == reqs[late].id == k
    requires R.Callers(reqs, k) >= 1 && AlwaysRight(reqs, t0, k)
    requires var d := R.Delta(reqs[last], k); InRange(d + d) && InRange(d + d + R.Delta(reqs[late], k))
    ensures R.Delta(reqs[late], k) == 0
  {
    RightLast(reqs, t0, isCounter, k, other, last);
    var schedule, e := LateAdds(reqs, t0, isCounter, k, other, last, late);
    RightOf(reqs, t0, k, schedule, e);
  }

  /** Deltas of one sign: the total is at least what three callers bring. */
  lemma {:induction false} OneSign(reqs: seq<R.Request>, k: string, a: nat, b: nat, c: nat)
    requires a < |reqs| && b < |reqs| && c < |reqs| && a != b && a != c && b != c
    ensures var three := R.Delta(reqs[a], k) + R.Delta(reqs[b], k) + R.Delta(reqs[c], k);
            && ((forall q :: q in reqs ==> R.Delta(q, k) >= 0) ==> R.Total(reqs, k) >= three)
            && ((forall q :: q in reqs ==> R.Delta(q, k) <= 0) ==> R.Total(reqs, k) <= three)
  {
    var none := seq(|reqs|, _ => Start);
    var one, two := none[a := Ended(Done)], none[a := Ended(Done)][b := Ended(Done)];
    DoneTotalBounds(reqs, none, k);
    DoneTotalUpdate(reqs, none, a, Ended(Done), k);
    DoneTotalUpdate(reqs, one, b, Ended(Done), k);
    DoneTotalUpdate(reqs, two, c, Ended(Done), k);
    DoneTotalBounds(reqs, two[c := Ended(Done)], k);
    UpIsTotal(reqs, k);
  }

  lemma {:induction false} UpIsTotal(reqs: seq<R.Request>, k: string)
    ensures (forall q :: q in reqs ==> R.Delta(q, k) >= 0) ==> Up(reqs, k) == R.Total(reqs, k)
    ensures (forall q :: q in reqs ==> R.Delta(q, k) <= 0) ==> Down(reqs, k) == R.Total(reqs, k)
  {
    if reqs != [] {
      UpIsTotal(reqs[1..], k);
      assert reqs[0] in reqs && forall q :: q in reqs[1..] ==> q in reqs;
    }
  }

  lemma {:induction false} ThirdCaller(reqs: seq<R.Request>, k: string, i: nat, j: nat) returns (m: nat)
    requires R.Callers(reqs, k) >= 3 && i < |reqs| && j < |reqs| && i != j && reqs[i].id == reqs[j].id == k
    ensures m < |reqs| && m != i && m != j && reqs[m].id == k
  {
    if i == 0 {
      m := R.AnotherCaller(reqs[1..], k, j - 1);
      m := m + 1;
    } else if j == 0 {
      m := R.AnotherCaller(reqs[1..], k, i - 1);
      m := m + 1;
    } else if reqs[0].id == k {
      m := 0;
    } else {
      m := ThirdCaller(reqs[1..], k, i - 1, j - 1);
      m := m + 1;
    }
  }

  /** Not all of three deltas or more are too big to double. */
  lemma {:induction false} SomeSmall(reqs: seq<R.Request>, t0: Table, isCounter: string -> bool, k: string)
    requires Setting(reqs, t0, isCounter, k) && R.Callers(reqs, k) >= 3 && AlwaysRight(reqs, t0, k)
    ensures exists m :: 0 <= m < |reqs| && reqs[m].id == k && !Big(reqs[m], k)
  {
    var a := R.SomeCaller(reqs, k);
    var b := R.AnotherCaller(reqs, k, a);
    if forall m :: 0 <= m < |reqs| && reqs[m].id == k ==> Big(reqs[m], k) {
      var total := R.Total(reqs, k);
      forall m | 0 <= m < |reqs| && reqs[m].id == k
        ensures R.Delta(reqs[m], k) == total
      {
        var other := R.AnotherCaller(reqs, k, m);
        assert OthersBig(reqs, k, m) && Big(reqs[other], k);
        RightLast(reqs, t0, isCounter, k, m, other);
      }
      OneDelta(reqs, k, a, b, total);
    }
  }

  /** Three equal deltas do not add up to one of them. */
  lemma {:induction false} OneDelta(reqs: seq<R.Request>, k: string, a: nat, b: nat, d: int)
    requires R.Callers(reqs, k) >= 3 && a < |reqs| && b < |reqs| && a != b && reqs[a].id == reqs[b].id == k
    requires forall m :: 0 <= m < |reqs| && reqs[m].id == k ==> R.Delta(reqs[m], k) == d
    ensures R.Total(reqs, k) == d ==> d == 0
  {
    var c := ThirdCaller(reqs, k, a, b);
    OneSign(reqs, k, a, b, c);
    forall q | q in reqs
      ensures R.Delta(q, k) == d || R.Delta(q, k) == 0
    {
      var m :| 0 <= m < |reqs| && reqs[m] == q;
    }
  }

  /** One that can be doubled is 0. */
  lemma {:induction false} SmallIsZero(reqs: seq<R.Request>, t0: Table, isCounter: string -> bool, k: string, z: nat)
    requires Setting(reqs, t0, isCounter, k) && R.Callers(reqs, k) >= 3 && AlwaysRight(reqs, t0, k)
    requires z < |reqs| && reqs[z].id == k && !Big(reqs[z], k)
    ensures R.Delta(reqs[z], k) == 0
  {
    var dz := R.Delta(reqs[z], k);
    if dz != 0 {
      var a := R.AnotherCaller(reqs, k, z);
      var b := ThirdCaller(reqs, k, z, a);
      RightLast(reqs, t0, isCounter, k, a, z);
      AlikeCaller(reqs, t0, isCounter, k, z, a);
      AlikeCaller(reqs, t0, isCounter, k, z, b);
      AllAlike(reqs, t0, isCounter, k, z);
      OneSign(reqs, k, z, a, b);
    }
  }

  lemma {:induction false} AllAlike(reqs: seq<R.Request>, t0: Table, isCounter: string -> bool, k: string, z: nat)
    requires Setting(reqs, t0, isCounter, k) && R.Callers(reqs, k) >= 3 && AlwaysRight(reqs, t0, k)
    requires z < |reqs| && reqs[z].id == k && !Big(reqs[z], k) && R.Delta(reqs[z], k) != 0
    ensures R.Delta(reqs[z], k) > 0 ==> forall q :: q in reqs ==> R.Delta(q, k) >= 0
    ensures R.Delta(reqs[z], k) < 0 ==> forall q :: q in reqs ==> R.Delta(q, k) <= 0
  {
    forall q | q in reqs
      ensures R.Delta(reqs[z], k) > 0 ==> R.Delta(q, k) >= 0
      ensures R.Delta(reqs[z], k) < 0 ==> R.Delta(q, k) <= 0
    {
      var m :| 0 <= m < |reqs| && reqs[m] == q;
      if m != z && q.id == k {
        AlikeCaller(reqs, t0, isCounter, k, z, m);
      }
    }
  }

  /** Of the same sign, and the same if it can be doubled. */
  predicate Alike(dz: int, d: int) {
    (dz > 0 ==> d > 0) && (dz < 0 ==> d < 0) && (InRange(d + d) ==> d == dz)
  }

  lemma {:induction false} AlikeCaller(reqs: seq<R.Request>, t0: Table, isCounter: string -> bool, k: string,
                                       z: nat, m: nat)
    requires Setting(reqs, t0, isCounter, k) && R.Callers(reqs, k) >= 3 && AlwaysRight(reqs, t0, k)
    requires z < |reqs| && m < |reqs| && z != m && reqs[z].id == reqs[m].id == k
    requires !Big(reqs[z], k) && R.Delta(reqs[z], k) != 0
    ensures Alike(R.Delta(reqs[z], k), R.Delta(reqs[m], k))
  {
    var dz, d := R.Delta(reqs[z], k), R.Delta(reqs[m], k);
    RightLast(reqs, t0, isCounter, k, m, z);
    RightLast(reqs, t0, isCounter, k, z, m);
    if InRange(dz + dz + d) {
      var y := ThirdCaller(reqs, k, z, m);
      RightLate(reqs, t0, isCounter, k, y, z, m);
    }
  }

  /** Three callers and all interleavings right: no deltas. */
  lemma {:induction false} ThreeCallersNoDelta(reqs: seq<R.Request>, t0: Table, isCounter: string -> bool, k: string,
                                               x: nat)
    requires Setting(reqs, t0, isCounter, k) && R.Callers(reqs, k) >= 3 && AlwaysRight(reqs, t0, k)
    requires x < |reqs| && reqs[x].id == k
    ensures R.Delta(reqs[x], k) == 0
  {
    SomeSmall(reqs, t0, isCounter, k);
    var z :| 0 <= z < |reqs| && reqs[z].id == k && !Big(reqs[z], k);
    SmallIsZero(reqs, t0, isCounter, k, z);
    if x != z {
      var y := ThirdCaller(reqs, k, x, z);
      RightLate(reqs, t0, isCounter, k, y, z, x);
    }
  }

  lemma {:induction false} TwoCallersEqual(reqs: seq<R.Request>, t0: Table, isCounter: string -> bool, k: string)
    requires Setting(reqs, t0, isCounter, k) && R.Callers(reqs, k) == 2 && AlwaysRight(reqs, t0, k)
    ensures Safe(reqs, k)
  {
    var i := R.SomeCaller(reqs, k);
    var j := R.AnotherCaller(reqs, k, i);
    OnlyTwo(reqs, k, i, j);
    RightLast(reqs, t0, isCounter, k, i, j);
    RightLast(reqs, t0, isCounter, k, j, i);
    assert SameDeltas(reqs, k, R.Delta(reqs[i], k));
  }

  /** Two callers are all there are. */
  lemma {:induction false} OnlyTwo(reqs: seq<R.Request>, k: string, i: nat, j: nat)
    requires R.Callers(reqs, k) == 2 && i < |reqs| && j < |reqs| && i != j && reqs[i].id == reqs[j].id == k
    ensures R.Total(reqs, k) == R.Delta(reqs[i], k) + R.Delta(reqs[j], k)
    ensures forall q :: q in reqs && q.id == k ==> q == reqs[i] || q == reqs[j]
  {
    if i == 0 || j == 0 {
      OnlyOne(reqs[1..], k, if i == 0 then j - 1 else i - 1);
    } else {
      TwoCount(reqs[1..], k, i - 1, j - 1);
      OnlyTwo(reqs[1..], k, i - 1, j - 1);
    }
    assert forall q :: q in reqs ==> q == reqs[0] || q in reqs[1..];
  }

  lemma {:induction false} OneCounts(reqs: seq<R.Request>, k: string, i: nat)
    requires i < |reqs| && reqs[i].id == k
    ensures R.Callers(reqs, k) >= 1
  {
    if i > 0 {
      OneCounts(reqs[1..], k, i - 1);
    }
  }

  lemma {:induction false} TwoCount(reqs: seq<R.Request>, k: string, i: nat, j: nat)
    requires i < |reqs| && j < |reqs| && i != j && reqs[i].id == reqs[j].id == k
    ensures R.Callers(reqs, k) >= 2
  {
    if i == 0 || j == 0 {
      OneCounts(reqs[1..], k, if i == 0 then j - 1 else i - 1);
    } else {
      TwoCount(reqs[1..], k, i - 1, j - 1);
    }
  }

  lemma {:induction false} OnlyOne(reqs: seq<R.Request>, k: string, i: nat)
    requires R.Callers(reqs, k) == 1 && i < |reqs| && reqs[i].id == k
    ensures R.Total(reqs, k) == R.Delta(reqs[i], k)
    ensures forall q :: q in reqs && q.id == k ==> q == reqs[i]
  {
    if i == 0 {
      NoCaller(reqs[1..], k);
    } else {
      OneCounts(reqs[1..], k, i - 1);
      OnlyOne(reqs[1..], k, i - 1);
    }
    assert forall q :: q in reqs ==> q == reqs[0] || q in reqs[1..];
  }

  lemma {:induction false} NoCaller(reqs: seq<R.Request>, k: string)
    requires R.Callers(reqs, k) == 0
    ensures R.Total(reqs, k) == 0 && forall q :: q in reqs ==> q.id != k
  {
    if reqs != [] {
      NoCaller(reqs[1..], k);
    }
  }

  /** A counter without a row: every complete interleaving leaves the sum of its
      deltas in the table, and no row if nobody names it, exactly when at most one
      request names it, or all deltas are 0, or two requests bring one delta whose
      double fits. */
  lemma {:induction false} FirstWritesInTableIff(reqs: seq<R.Request>, t0: Table, isCounter: string -> bool, k: string)
    requires Setting(reqs, t0, isCounter, k)
    ensures AlwaysRight(reqs, t0, k) <==> Safe(reqs, k)
  {
    if Safe(reqs, k) {
      forall schedule
        ensures EndsRight(reqs, t0, schedule, k)
      {
        SafeIsRight(reqs, t0, schedule, isCounter, k);
      }
    }
    if AlwaysRight(reqs, t0, k) && R.Callers(reqs, k) >= 2 {
      if R.Callers(reqs, k) == 2 {
        TwoCallersEqual(reqs, t0, isCounter, k);
      } else {
        forall q | q in reqs
          ensures R.Delta(q, k) == 0
        {
          var x :| 0 <= x < |reqs| && reqs[x] == q;
          if q.id == k {
            ThreeCallersNoDelta(reqs, t0, isCounter, k, x);
          }
        }
      }
    }
  }
}
