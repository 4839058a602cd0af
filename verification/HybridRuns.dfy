// Whole runs of the backed-up store: round trip through the file, restarts,
// failed restores, failed writes and stray brackets.

module HybridRuns {
  import opened Wrappers
  import opened Models
  import opened AbstractStore
  import opened Hybrid

  // ---------- Through the file and back ----------

  lemma {:induction false} IdsOfTail(file: seq<Line>)
    requires file != [] && file[0].Rec?
    ensures Ids(file) == {file[0].j.id} + Ids(file[1..])
  {
    var tail := file[1..];
    forall k
      ensures k in Ids(file) <==> k in {file[0].j.id} + Ids(tail)
    {
      if k in Ids(tail) {
        var i :| 0 <= i < |tail| && tail[i].Rec? && tail[i].j.id == k;
        assert file[i + 1] == tail[i];
      }
      if i :| 0 < i < |file| && file[i].Rec? && file[i].j.id == k {
        assert tail[i - 1] == file[i];
      }
    }
  }

  lemma {:induction false} RestoreOverlays(file: seq<Line>, s: Store, st: MemState)
    requires Partial(file, s) && !st.locked
    ensures var r := RestoreSpec(file, st);
            && r.out.Done? && !r.st.locked
            && forall k :: Lookup(r.st.store, k) == if k in Ids(file) then Some(s[k]) else Lookup(st.store, k)
    decreases file
  {
    if file != [] {
      var j := file[0].j;
      IdsOfTail(file);
      JsonRoundTrip(Untyped(j.id, s[j.id].GetValue()));
      assert Fresh(s[j.id].GetValue()) == s[j.id];
      RestoreOverlays(file[1..], s, InsertSpec(st, j.id, s[j.id]).st);
    }
  }

  /** Restoring the records of a complete backup, whatever their order, rebuilds
      exactly the saved map, kinds included. */
  lemma {:induction false} RestoreInvertsBackup(file: seq<Line>, s: Store)
    requires Image(file, s)
    ensures RestoreSpec(file, EMPTY) == StepResult(MemState(s, false), Done)
  {
    RestoreOverlays(file, s, EMPTY);
    var r := RestoreSpec(file, EMPTY).st.store;
    forall k
      ensures k in r <==> k in s
      ensures k in s ==> r[k] == s[k]
    {
      assert Lookup(r, k) == if k in Ids(file) then Some(s[k]) else None;
    }
    assert r == s;
  }

  lemma {:induction false} ImageIsSafe(file: seq<Line>, s: Store)
    requires Image(file, s)
    ensures AllSafe(s)
  {
    forall k | k in s
      ensures s[k].JsonSafe()
    {
      assert k in Ids(file);
    }
  }

  /** A backup on a healthy file system succeeds exactly when no gauge is NaN or
      infinite and no earlier write error sticks to the encoder. */
  lemma {:induction false} BackupSucceedsIff(h: HState, io: Io, now: int, h': HState, out: Outcome)
    requires BackupRel(h, io, now, h', out) && Healthy(io)
    ensures out.Done? <==> !h.closed && AllSafe(h.mem.store) && (h.encErr ==> h.mem.store == map[])
  {
    if out.Done? {
      ImageIsSafe(h'.file, h.mem.store);
    }
  }

  /** The same for a graceful stop; when it succeeds the file is the image of
      memory, when it fails it holds some of the metrics. */
  lemma {:induction false} StopSucceedsIff(h: HState, io: Io, now: int, h': HState, out: Outcome)
    requires h.active && !h.closed && Healthy(io) && CloseRel(h, io, now, h', out)
    ensures out.Done? <==> AllSafe(h.mem.store) && (h.encErr ==> h.mem.store == map[])
    ensures h'.mem == h.mem && h'.interval == h.interval && h'.active && h'.hasFile == h.hasFile
    ensures out.Done? ==> Image(h'.file, h.mem.store) && h'.encErr == h.encErr && h'.closed == h.hasFile
    ensures !out.Done? ==> Partial(h'.file, h.mem.store) && (h'.file == [] || !AllSafe(h.mem.store))
  {
    var saved := h'.(closed := false);
    if BackupRel(h, io, now, saved, Done) && (h', out) == FileClosed(saved, io) {
      BackupSucceedsIff(h, io, now, saved, Done);
    } else {
      BackupSucceedsIff(h, io, now, h', Failed);
    }
  }

  // ---------- One restart ----------

  /** A graceful stop, unless the storage is stopped already, and a start with
      restore on the same file. */
  ghost predicate RestartRel(h: HState, io: Io, now: int, h': HState, out: Outcome) {
    exists stopped, closed :: RestartVia(h, io, now, stopped, closed, h', out)
  }

  ghost predicate RestartVia(h: HState, io: Io, now: int, stopped: HState, closed: Outcome, h': HState, out: Outcome) {
    && (if h.closed then stopped == h else CloseRel(h, io, now, stopped, closed))
    && (h', out) == OpenSpec(if h.hasFile then Some(stopped.file) else None, h.interval, true)
  }

  /** On a healthy file system a restart brings the store back exactly when
      every gauge is finite, the mutex had not leaked and no write error had
      stuck; otherwise what comes back is a different state. */
  lemma {:induction false} RestartPreservesIff(h: HState, io: Io, now: int, h': HState, out: Outcome)
    requires h.active && h.hasFile && !h.closed && Healthy(io) && RestartRel(h, io, now, h', out)
    ensures out.Done? && h'.mem == h.mem <==>
              AllSafe(h.mem.store) && !h.mem.locked && (h.encErr ==> h.mem.store == map[])
    ensures out.Done? ==> forall k :: k in h'.mem.store ==> k in h.mem.store && h'.mem.store[k] == h.mem.store[k]
    ensures out.Done? && h'.mem == h.mem ==> Running(h') && Image(h'.file, h'.mem.store)
  {
    var stopped, closed :| RestartVia(h, io, now, stopped, closed, h', out);
    StopSucceedsIff(h, io, now, stopped, closed);
    if closed.Done? {
      RestoreInvertsBackup(stopped.file, h.mem.store);
    } else {
      PartialRestores(stopped.file, h.mem.store);
      MissesOne(stopped.file, h.mem.store);
    }
  }

  /** A storage that has just been opened on a file it could read. */
  predicate Running(h: HState) {
    h.active && h.hasFile && !h.encErr && !h.closed
  }

  /** A stopped storage starts again with what its last backup saved. */
  lemma {:induction false} StoppedRestarts(h: HState, io: Io, now: int, h': HState, out: Outcome)
    requires h.hasFile && h.closed && RestartRel(h, io, now, h', out)
    requires Image(h.file, h.mem.store) && !h.mem.locked
    ensures out.Done? && h'.mem == h.mem && h'.file == h.file && h'.interval == h.interval && Running(h')
  {
    var stopped, closed :| RestartVia(h, io, now, stopped, closed, h', out);
    RestoreInvertsBackup(h.file, h.mem.store);
  }

  /** Restoring an incomplete backup gives exactly the metrics it has. */
  lemma {:induction false} PartialRestores(file: seq<Line>, s: Store)
    requires Partial(file, s)
    ensures var r := RestoreSpec(file, EMPTY);
            && r.out.Done? && !r.st.locked
            && (forall k :: k in r.st.store ==> k in s && r.st.store[k] == s[k])
            && (forall k :: k in r.st.store <==> k in Ids(file))
  {
    RestoreOverlays(file, s, EMPTY);
    var r := RestoreSpec(file, EMPTY);
    forall k
      ensures k in r.st.store <==> k in Ids(file)
      ensures k in r.st.store ==> k in s && r.st.store[k] == s[k]
    {
      assert Lookup(r.st.store, k) == if k in Ids(file) then Some(s[k]) else None;
    }
  }

  /** A backup that failed on a healthy file system misses some metric. */
  lemma {:induction false} MissesOne(file: seq<Line>, s: Store)
    requires Partial(file, s)
    requires (file == [] && s != map[]) || !AllSafe(s)
    ensures exists k :: k in s && k !in Ids(file)
  {
    if !AllSafe(s) {
      var k :| k in s && !s[k].JsonSafe();
      assert k !in Ids(file);
    } else {
      var k :| k in s;
      assert k !in Ids(file);
    }
  }

  // ---------- Runs ----------

  datatype Event =
    | Mutate(c: Call, io: Io, asked: int, now: int)
    | Stop(io: Io, now: int)
    | Restart(io: Io, now: int)

  ghost predicate EventRel(h: HState, e: Event, h': HState, out: Outcome) {
    match e
    case Mutate(c, io, asked, now) => MutateRel(h, CallSpec(h.mem, c), io, asked, now, h', out)
    case Stop(io, now) => CloseRel(h, io, now, h', out)
    case Restart(io, now) => RestartRel(h, io, now, h', out)
  }

  ghost predicate IsRun(hs: seq<HState>, es: seq<Event>, outs: seq<Outcome>) {
    && |hs| == |es| + 1 && |outs| == |es|
    && forall i :: 0 <= i < |es| ==> EventRel(hs[i], es[i], hs[i + 1], outs[i])
  }

  /** The store calls of a run, without stops and restarts. */
  function Calls(es: seq<Event>): seq<Call> {
    if es == [] then []
    else (if es[0].Mutate? then [es[0].c] else []) + Calls(es[1..])
  }

  /** Every metric has the kind `isCounter` gives its name, and JSON can carry
      it; the mutex is free. */
  ghost predicate GoodState(st: MemState, isCounter: string -> bool) {
    !st.locked && forall k :: k in st.store ==> (isCounter(k) <==> st.store[k].Counter?) && st.store[k].JsonSafe()
  }

  predicate GoodValue(k: string, v: Any, isCounter: string -> bool) {
    IsNumber(v) && (isCounter(k) <==> v.Int?) && Fresh(v).JsonSafe()
  }

  predicate GoodCall(c: Call, isCounter: string -> bool) {
    match c
    case InsertCall(k, r) => GoodValue(k, r.GetValue(), isCounter)
    case UpdateCall(k, v) => GoodValue(k, v, isCounter)
    case RequestCall(k, mtype, v) => GoodValue(k, v, isCounter) && NewMetric(mtype, v).Some?
    case BatchCall(xs) => forall m :: m in xs ==> GoodValue(m.id, m.actual, isCounter)
  }

  lemma {:induction false} GoodBatchKeepsGood(st: MemState, xs: seq<Metrics>, isCounter: string -> bool)
    requires GoodState(st, isCounter)
    requires forall m :: m in xs ==> GoodValue(m.id, m.actual, isCounter)
    ensures GoodState(BatchSpec(st, xs).st, isCounter)
    decreases xs
  {
    if xs != [] {
      assert xs[0] in xs;
      assert GoodState(ElementSpec(st, xs[0]).st, isCounter);
      assert forall m :: m in xs[1..] ==> m in xs;
      GoodBatchKeepsGood(ElementSpec(st, xs[0]).st, xs[1..], isCounter);
    }
  }

  lemma {:induction false} GoodCallKeepsGood(st: MemState, c: Call, isCounter: string -> bool)
    requires GoodState(st, isCounter) && GoodCall(c, isCounter)
    ensures GoodState(CallSpec(st, c).st, isCounter)
  {
    if c.BatchCall? {
      GoodBatchKeepsGood(st, c.xs, isCounter);
    }
  }

  /** A storage in working order: backups on, encoder healthy, good metrics. */
  ghost predicate GoodStorage(h: HState, isCounter: string -> bool) {
    && h.active && h.hasFile && !h.encErr && GoodState(h.mem, isCounter)
    && (h.closed ==> Image(h.file, h.mem.store))
  }

  /** No call comes between a stop and the next start. */
  ghost predicate GoodEvent(h: HState, e: Event, isCounter: string -> bool) {
    Healthy(e.io) && if e.Restart? then true else !h.closed && (e.Mutate? ==> GoodCall(e.c, isCounter))
  }

  ghost predicate GoodRun(hs: seq<HState>, es: seq<Event>, outs: seq<Outcome>, isCounter: string -> bool) {
    && IsRun(hs, es, outs)
    && GoodStorage(hs[0], isCounter)
    && forall i :: 0 <= i < |es| ==> GoodEvent(hs[i], es[i], isCounter)
  }

  /** One good event: the memory moves as the call says, a restart is invisible,
      and either nothing is written or the file becomes the image of memory. */
  lemma {:induction false} GoodStep(h: HState, e: Event, h': HState, out: Outcome, isCounter: string -> bool)
    requires GoodStorage(h, isCounter) && GoodEvent(h, e, isCounter) && EventRel(h, e, h', out)
    ensures GoodStorage(h', isCounter)
    ensures h'.mem == if e.Mutate? then CallSpec(h.mem, e.c).st else h.mem
    ensures h'.interval == h.interval
    ensures out == if e.Mutate? then CallSpec(h.mem, e.c).out else Done
    ensures if e.Mutate? && !(out.Done? && Due(e.asked, h.last, h.interval)) then h'.file == h.file
            else Image(h'.file, h'.mem.store)
  {
    match e
    case Mutate(c, io, asked, now) =>
      GoodCallKeepsGood(h.mem, c, isCounter);
      var r := CallSpec(h.mem, c);
      if r.out.Done? && Due(asked, h.last, h.interval) {
        BackupSucceedsIff(h.(mem := r.st), io, now, h', out);
      }
    case Stop(io, now) =>
      StopSucceedsIff(h, io, now, h', out);
    case Restart(io, now) =>
      if h.closed {
        StoppedRestarts(h, io, now, h', out);
      } else {
        RestartPreservesIff(h, io, now, h', out);
      }
  }

  lemma {:induction false} RunCallsSnoc(st: MemState, cs: seq<Call>, c: Call)
    ensures RunCalls(st, cs + [c]) == CallSpec(RunCalls(st, cs), c).st
    decreases cs
  {
    if cs != [] {
      assert (cs + [c])[1..] == cs[1..] + [c];
      RunCallsSnoc(CallSpec(st, cs[0]).st, cs[1..], c);
    } else {
      assert RunCalls(st, [c]) == RunCalls(CallSpec(st, c).st, []);
    }
  }

  lemma {:induction false} CallsSnoc(es: seq<Event>, e: Event)
    ensures Calls(es + [e]) == Calls(es) + if e.Mutate? then [e.c] else []
  {
    if es != [] {
      assert (es + [e])[1..] == es[1..] + [e];
      CallsSnoc(es[1..], e);
    }
  }

  lemma {:induction false} PrefixCalls(st: MemState, es: seq<Event>, n: nat)
    requires 0 < n <= |es|
    ensures RunCalls(st, Calls(es[..n]))
         == var mid := RunCalls(st, Calls(es[..n - 1]));
            if es[n - 1].Mutate? then CallSpec(mid, es[n - 1].c).st else mid
  {
    var before, e := Calls(es[..n - 1]), es[n - 1];
    assert es[..n] == es[..n - 1] + [e];
    CallsSnoc(es[..n - 1], e);
    if e.Mutate? {
      RunCallsSnoc(st, before, e.c);
    } else {
      assert Calls(es[..n]) == before;
    }
  }

  lemma {:induction false} GoodRunPrefix(hs: seq<HState>, es: seq<Event>, outs: seq<Outcome>,
                                         isCounter: string -> bool, n: nat)
    requires GoodRun(hs, es, outs, isCounter) && n <= |es|
    ensures GoodStorage(hs[n], isCounter)
    ensures hs[n].interval == hs[0].interval
    ensures hs[n].mem == RunCalls(hs[0].mem, Calls(es[..n]))
  {
    if n > 0 {
      GoodRunPrefix(hs, es, outs, isCounter, n - 1);
      GoodStep(hs[n - 1], es[n - 1], hs[n], outs[n - 1], isCounter);
      PrefixCalls(hs[0].mem, es, n);
    }
  }

  /** Restarts are invisible: two runs from the same metrics with the same store
      calls end with the same map, however many stops and restarts each has and
      wherever they are. The map is the one the in-memory store alone computes, and
      each call ends as it does there. */
  lemma {:induction false} RestartTransparency(hs: seq<HState>, es: seq<Event>, outs: seq<Outcome>,
                            hs': seq<HState>, es': seq<Event>, outs': seq<Outcome>, isCounter: string -> bool)
    requires GoodRun(hs, es, outs, isCounter) && GoodRun(hs', es', outs', isCounter)
    requires hs[0].mem == hs'[0].mem && Calls(es) == Calls(es')
    ensures hs[|es|].mem == hs'[|es'|].mem == RunCalls(hs[0].mem, Calls(es))
    ensures forall n :: 0 <= n < |es| ==>
              outs[n] == if es[n].Mutate? then CallSpec(RunCalls(hs[0].mem, Calls(es[..n])), es[n].c).out else Done
  {
    GoodRunPrefix(hs, es, outs, isCounter, |es|);
    GoodRunPrefix(hs', es', outs', isCounter, |es'|);
    assert es[..|es|] == es && es'[..|es'|] == es';
    forall n | 0 <= n < |es|
      ensures outs[n] == if es[n].Mutate? then CallSpec(RunCalls(hs[0].mem, Calls(es[..n])), es[n].c).out else Done
    {
      GoodRunPrefix(hs, es, outs, isCounter, n);
      GoodStep(hs[n], es[n], hs[n + 1], outs[n], isCounter);
    }
  }

  // ---------- After a failure ----------

  /** A failed restore freezes the file: no later mutation, stop or restart, with
      any arguments and any file system, changes it or turns backups on again. */
  lemma {:induction false} FailedRestoreFreezesFile(hs: seq<HState>, es: seq<Event>, outs: seq<Outcome>,
                                                    content: seq<Line>, n: nat)
    requires IsRun(hs, es, outs) && n <= |es|
    requires hs[0] == OpenSpec(Some(content), hs[0].interval, true).0
    requires !OpenSpec(Some(content), hs[0].interval, true).1.Done?
    ensures hs[n].file == content && !hs[n].active
  {
    FrozenPrefix(hs, es, outs, content, n);
  }

  lemma {:induction false} FrozenPrefix(hs: seq<HState>, es: seq<Event>, outs: seq<Outcome>, content: seq<Line>, n: nat)
    requires IsRun(hs, es, outs) && n <= |es|
    requires hs[0].file == content && hs[0].hasFile && !hs[0].active
    requires !RestoreSpec(content, EMPTY).out.Done?
    ensures hs[n].file == content && hs[n].hasFile && !hs[n].active
  {
    if n > 0 {
      FrozenPrefix(hs, es, outs, content, n - 1);
      assert EventRel(hs[n - 1], es[n - 1], hs[n], outs[n - 1]);
    }
  }

  /** A write error is permanent: until a restart the file is never written
      again, only emptied. */
  lemma {:induction false} WriteErrorIsPermanent(hs: seq<HState>, es: seq<Event>, outs: seq<Outcome>, n: nat)
    requires IsRun(hs, es, outs) && n <= |es|
    requires hs[0].encErr
    requires forall i :: 0 <= i < n ==> !es[i].Restart?
    ensures hs[n].encErr
    ensures hs[n].file == hs[0].file || hs[n].file == []
  {
    if n > 0 {
      WriteErrorIsPermanent(hs, es, outs, n - 1);
      assert EventRel(hs[n - 1], es[n - 1], hs[n], outs[n - 1]);
    }
  }

  /** A call after a graceful stop: memory changes, the closed file does not, and
      the next start brings back what the stop saved. The call reports an error
      exactly when it succeeded in memory and a backup was due. */
  lemma {:induction false} CallAfterStopIsLost(h: HState, c: Call, io: Io, asked: int, now: int, mid: HState,
                                               out: Outcome, io': Io, now': int, h': HState, out': Outcome)
    requires h.active && h.hasFile && h.closed && Image(h.file, h.mem.store) && !h.mem.locked
    requires MutateRel(h, CallSpec(h.mem, c), io, asked, now, mid, out)
    requires RestartRel(mid, io', now', h', out')
    ensures mid.mem == CallSpec(h.mem, c).st && out'.Done? && h'.mem == h.mem
    ensures CallSpec(h.mem, c).out.Done? ==>
              (out.Failed? <==> Due(asked, h.last, h.interval)) && (out.Failed? || out.Done?)
  {
    RestoreInvertsBackup(h.file, h.mem.store);
    var stopped, closed :| RestartVia(mid, io', now', stopped, closed, h', out');
    assert mid.closed && mid.file == h.file;
  }

  // ---------- A stray bracket in the file ----------

  /** How many lines Restore meets before it stops for good. */
  function BeforeStray(lines: seq<Line>): nat {
    if lines == [] || lines[0].Stray? then 0 else 1 + BeforeStray(lines[1..])
  }

  /** A record that decodes to a number. */
  predicate Readable(l: Line) {
    l.Rec? && UnmarshalJSON(l.j).Success? && IsNumber(UnmarshalJSON(l.j).value.actual)
  }

  lemma {:induction false} BeforeStrayIsFirst(lines: seq<Line>)
    ensures var n := BeforeStray(lines);
            && n <= |lines|
            && (forall i :: 0 <= i < n ==> !lines[i].Stray?)
            && (n < |lines| ==> lines[n].Stray?)
  {
    if lines != [] && !lines[0].Stray? {
      BeforeStrayIsFirst(lines[1..]);
    }
  }

  /** What the last readable record for a name says. */
  function LastIn(lines: seq<Line>, k: string): Option<Reading> {
    if lines == [] then None
    else
      var l, before := lines[|lines| - 1], lines[..|lines| - 1];
      if Readable(l) && l.j.id == k then Some(Fresh(UnmarshalJSON(l.j).value.actual)) else LastIn(before, k)
  }

  lemma {:induction false} LastInAppend(head: seq<Line>, tail: seq<Line>, k: string)
    ensures LastIn(head + tail, k) == if LastIn(tail, k).Some? then LastIn(tail, k) else LastIn(head, k)
    decreases |tail|
  {
    if tail == [] {
      assert head + tail == head;
    } else {
      var n := |tail| - 1;
      assert (head + tail)[..|head + tail| - 1] == head + tail[..n];
      LastInAppend(head, tail[..n], k);
    }
  }

  /** The insert that a readable record causes. */
  function RestoreOne(st: MemState, l: Line): MemState
    requires Readable(l) && !st.locked
  {
    var m := UnmarshalJSON(l.j).value;
    InsertSpec(st, m.id, Fresh(m.actual)).st
  }

  /** Reading only readable records: each name gets what its last record says. */
  lemma {:induction false} RecordsMeaning(lines: seq<Line>, st: MemState)
    requires !st.locked && forall i :: 0 <= i < |lines| ==> Readable(lines[i])
    ensures var r := RestoreSpec(lines, st);
            && r.out.Done? && !r.st.locked
            && forall k :: Lookup(r.st.store, k)
                        == if LastIn(lines, k).Some? then LastIn(lines, k) else Lookup(st.store, k)
    decreases lines
  {
    if lines != [] {
      var tail, next := lines[1..], RestoreOne(st, lines[0]);
      assert Readable(lines[0]) && forall i :: 0 <= i < |tail| ==> tail[i] == lines[i + 1];
      assert RestoreSpec(lines, st) == RestoreSpec(tail, next);
      RecordsMeaning(tail, next);
      assert lines == [lines[0]] + tail;
      forall k
        ensures LastIn(lines, k) == if LastIn(tail, k).Some? then LastIn(tail, k) else LastIn([lines[0]], k)
        ensures Lookup(next.store, k)
             == if LastIn([lines[0]], k).Some? then LastIn([lines[0]], k) else Lookup(st.store, k)
      {
        LastInAppend([lines[0]], tail, k);
        assert [lines[0]][..0] == [];
      }
    }
  }

  /** Nothing from the first stray bracket on is read, and a restore ends without
      an error exactly when every line before it is a readable record. */
  lemma {:induction false} RestoreStopsAtStray(lines: seq<Line>, st: MemState)
    requires !st.locked
    ensures var n, r := BeforeStray(lines), RestoreSpec(lines, st);
            && n <= |lines|
            && r == RestoreSpec(lines[..n], st)
            && (r.out.Done? <==> forall i :: 0 <= i < n ==> Readable(lines[i]))
    decreases lines
  {
    BeforeStrayIsFirst(lines);
    if lines != [] && !lines[0].Stray? {
      var n, tail := BeforeStray(lines), lines[1..];
      assert lines[..n][1..] == tail[..n - 1] && forall i :: 0 < i < n ==> lines[i] == tail[i - 1];
      if Readable(lines[0]) {
        RestoreStopsAtStray(tail, RestoreOne(st, lines[0]));
      }
    }
  }

  /** JSON brings finite gauges only. */
  lemma {:induction false} RestoredIsSafe(lines: seq<Line>, st: MemState)
    requires !st.locked && AllSafe(st.store)
    ensures AllSafe(RestoreSpec(lines, st).st.store)
    decreases lines
  {
    if lines != [] && Readable(lines[0]) {
      var next := RestoreOne(st, lines[0]);
      assert RestoreSpec(lines, st) == RestoreSpec(lines[1..], next);
      RestoredIsSafe(lines[1..], next);
    }
  }

  /** A restore that ends without an error gives every name what its last record
      before the bracket says, and no other name anything. */
  lemma {:induction false} RestoredMeaning(content: seq<Line>)
    requires RestoreSpec(content, EMPTY).out.Done?
    ensures var n, r := BeforeStray(content), RestoreSpec(content, EMPTY);
            && n <= |content| && !r.st.locked
            && forall k :: Lookup(r.st.store, k) == LastIn(content[..n], k)
  {
    RestoreStopsAtStray(content, EMPTY);
    RecordsMeaning(content[..BeforeStray(content)], EMPTY);
  }

  /** After such a restore backups are on, and a backup of the storage as it was
      opened, by a stop right away say, makes the file the image of what stood
      before the first stray bracket. */
  lemma {:induction false} StrayBracketErasesRest(content: seq<Line>, interval: int, io: Io, now: int,
                                                  h': HState, out: Outcome)
    requires OpenSpec(Some(content), interval, true).1.Done? && Healthy(io)
    requires BackupRel(OpenSpec(Some(content), interval, true).0, io, now, h', out)
    ensures var n := BeforeStray(content);
            && n <= |content|
            && OpenSpec(Some(content), interval, true).0.active
            && out.Done? && Image(h'.file, RestoreSpec(content[..n], EMPTY).st.store)
  {
    var h := OpenSpec(Some(content), interval, true).0;
    RestoreStopsAtStray(content, EMPTY);
    RestoredIsSafe(content, EMPTY);
    BackupSucceedsIff(h, io, now, h', out);
  }

  /** The store holds what the records of the file say last. */
  ghost predicate HoldsRecords(s: Store, content: seq<Line>) {
    forall k :: Lookup(s, k) == LastIn(content, k)
  }

  /** Every name with a readable record after the first `n` lines has there as its
      last reading the one its last record before has. */
  ghost predicate RestRepeats(content: seq<Line>, n: nat)
    requires n <= |content|
  {
    forall k :: LastIn(content[n..], k).Some? ==> LastIn(content[n..], k) == LastIn(content[..n], k)
  }

  lemma {:induction false} PrefixHoldsIff(s: Store, content: seq<Line>, n: nat)
    requires n <= |content| && HoldsRecords(s, content[..n])
    ensures HoldsRecords(s, content) <==> RestRepeats(content, n)
  {
    assert content == content[..n] + content[n..];
    forall k
      ensures LastIn(content, k)
           == if LastIn(content[n..], k).Some? then LastIn(content[n..], k) else LastIn(content[..n], k)
    {
      LastInAppend(content[..n], content[n..], k);
    }
    if HoldsRecords(s, content) {
      forall k | LastIn(content[n..], k).Some?
        ensures LastIn(content[n..], k) == LastIn(content[..n], k)
      {
        assert Lookup(s, k) == LastIn(content, k) && Lookup(s, k) == LastIn(content[..n], k);
      }
    }
    if RestRepeats(content, n) {
      forall k
        ensures Lookup(s, k) == LastIn(content, k)
      {
        assert Lookup(s, k) == LastIn(content[..n], k);
      }
    }
  }

  /** Of a file that restores without an error nothing is lost, in memory and
      after the next backup in the file, exactly when every name with a readable
      record after the bracket has there as its last reading the one its last
      record before the bracket has. */
  lemma {:induction false} NothingLostIff(content: seq<Line>, interval: int, io: Io, now: int, h': HState, out: Outcome)
    requires OpenSpec(Some(content), interval, true).1.Done? && Healthy(io)
    requires BackupRel(OpenSpec(Some(content), interval, true).0, io, now, h', out)
    ensures BeforeStray(content) <= |content|
    ensures RestoreSpec(h'.file, EMPTY) == RestoreSpec(content, EMPTY)
    ensures HoldsRecords(RestoreSpec(h'.file, EMPTY).st.store, content) <==> RestRepeats(content, BeforeStray(content))
  {
    StrayBracketErasesRest(content, interval, io, now, h', out);
    RestoreStopsAtStray(content, EMPTY);
    RestoredMeaning(content);
    RestoreInvertsBackup(h'.file, RestoreSpec(content, EMPTY).st.store);
    PrefixHoldsIff(RestoreSpec(content, EMPTY).st.store, content, BeforeStray(content));
  }

  /** The file without its brackets. */
  function Unbracketed(lines: seq<Line>): seq<Line> {
    if lines == [] then []
    else (if lines[0].Stray? then [] else [lines[0]]) + Unbracketed(lines[1..])
  }

  lemma {:induction false} UnbracketedSame(lines: seq<Line>)
    requires forall i :: 0 <= i < |lines| ==> Readable(lines[i]) || lines[i].Stray?
    ensures forall i :: 0 <= i < |Unbracketed(lines)| ==> Readable(Unbracketed(lines)[i])
    ensures forall k :: LastIn(Unbracketed(lines), k) == LastIn(lines, k)
  {
    if lines != [] {
      var first, tail := if lines[0].Stray? then [] else [lines[0]], lines[1..];
      assert forall i :: 0 <= i < |tail| ==> tail[i] == lines[i + 1];
      assert Readable(lines[0]) || lines[0].Stray?;
      UnbracketedSame(tail);
      assert lines == [lines[0]] + tail;
      forall k
        ensures LastIn(Unbracketed(lines), k) == LastIn(lines, k)
      {
        LastInAppend([lines[0]], tail, k);
        LastInAppend(first, Unbracketed(tail), k);
        assert [lines[0]][..0] == [];
      }
    }
  }

  /** What the records of a file say is what a restore of the same records
      without the brackets would have given. */
  lemma {:induction false} RecordsWithoutBrackets(content: seq<Line>)
    requires forall i :: 0 <= i < |content| ==> Readable(content[i]) || content[i].Stray?
    ensures var r := RestoreSpec(Unbracketed(content), EMPTY);
            r.out.Done? && forall k :: Lookup(r.st.store, k) == LastIn(content, k)
  {
    UnbracketedSame(content);
    RecordsMeaning(Unbracketed(content), EMPTY);
  }

  /** A newer value of a known name behind the bracket is lost. */
  lemma {:induction false} NewerValueIsLost()
    ensures var content := [Rec(JsonMetric("a", COUNTER, None, Some(1))), Stray,
                            Rec(JsonMetric("a", COUNTER, None, Some(5)))];
            && RestoreSpec(content, EMPTY) == StepResult(MemState(map["a" := Counter(1)], false), Done)
            && LastIn(content, "a") == Some(Counter(5))
  {
    var content := [Rec(JsonMetric("a", COUNTER, None, Some(1))), Stray, Rec(JsonMetric("a", COUNTER, None, Some(5)))];
    assert RestoreSpec(content[1..], MemState(map["a" := Counter(1)], false)).out.Done?;
    assert content[|content| - 1].j.id == "a" && Readable(content[|content| - 1]);
  }
}
