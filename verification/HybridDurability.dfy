// When the backed-up store writes its file: the clock of its backups, how stale the
// file can be, what a crash loses, and what is written without a restore, without a
// file and after a failure.

module HybridDurability {
  import opened Wrappers
  import opened Models
  import opened AbstractStore
  import opened Hybrid
  import opened HybridRuns

  // ---------- The clock of the backups ----------

  /** More than `interval` seconds after `since`. No span that time.Since can
      return is longer than 9223372036 seconds, or shorter than minus that. */
  predicate Overdue(asked: int, since: int, interval: int) {
    interval < -9_223_372_036 || (interval <= 9_223_372_036 && asked - since > interval * 1_000_000_000)
  }

  lemma {:induction false} DueIffOverdue(asked: int, since: int, interval: int)
    ensures Due(asked, since, interval) <==> Overdue(asked, since, interval)
  {
  }

  /** The event empties the file and starts to write it, the last backup having
      been at `since`; or it opens the file anew. */
  predicate Saves(h: HState, e: Event, since: int) {
    match e
    case Mutate(c, io, asked, _) =>
      && h.active && !h.closed && io.truncates && io.seeks
      && CallSpec(h.mem, c).out.Done? && Overdue(asked, since, h.interval)
    case Stop(io, _) => h.active && !h.closed && io.truncates && io.seeks
    case Restart(_, _) => true
  }

  /** How many events there have been up to the last of the first `n` that saved. */
  ghost function LastSave(hs: seq<HState>, es: seq<Event>, n: nat): (b: nat)
    requires |hs| == |es| + 1 && n <= |es|
    ensures b <= n
  {
    if n == 0 then 0
    else
      var b := LastSave(hs, es, n - 1);
      if Saves(hs[n - 1], es[n - 1], TimeOf(hs, es, b)) then n else b
  }

  /** The clock of that event; a storage that has just been opened has Go's zero
      time. */
  ghost function TimeOf(hs: seq<HState>, es: seq<Event>, b: nat): int
    requires |hs| == |es| + 1 && b <= |es|
  {
    if b == 0 then hs[0].last else if es[b - 1].Restart? then ZERO_TIME else es[b - 1].now
  }

  lemma {:induction false} EventMovesClock(h: HState, e: Event, h': HState, out: Outcome)
    requires EventRel(h, e, h', out)
    ensures h'.interval == h.interval
    ensures h'.last == if !Saves(h, e, h.last) then h.last else if e.Restart? then ZERO_TIME else e.now
  {
    if e.Mutate? {
      DueIffOverdue(e.asked, h.last, h.interval);
    }
  }

  lemma {:induction false} RunMovesClock(hs: seq<HState>, es: seq<Event>, outs: seq<Outcome>, n: nat)
    requires IsRun(hs, es, outs) && n < |es|
    ensures hs[n + 1].interval == hs[n].interval
    ensures hs[n + 1].last
         == if !Saves(hs[n], es[n], hs[n].last) then hs[n].last else if es[n].Restart? then ZERO_TIME else es[n].now
  {
    assert EventRel(hs[n], es[n], hs[n + 1], outs[n]);
    EventMovesClock(hs[n], es[n], hs[n + 1], outs[n]);
  }

  /** In every run, failing calls included, the storage remembers the time of the
      last event that saved. */
  lemma {:induction false} LastIsTimeOfSave(hs: seq<HState>, es: seq<Event>, outs: seq<Outcome>, n: nat)
    requires IsRun(hs, es, outs) && n <= |es|
    ensures hs[n].last == TimeOf(hs, es, LastSave(hs, es, n)) && hs[n].interval == hs[0].interval
  {
    if n > 0 {
      LastIsTimeOfSave(hs, es, outs, n - 1);
      RunMovesClock(hs, es, outs, n - 1);
    }
  }

  /** In every run a mutation within the store interval of the last save leaves the
      file alone and ends as it does in memory; a successful one later, with
      backups on and the file open, writes it. */
  lemma {:induction false} MutationWritesIff(hs: seq<HState>, es: seq<Event>, outs: seq<Outcome>, n: nat)
    requires IsRun(hs, es, outs) && n < |es| && es[n].Mutate?
    ensures var due := Overdue(es[n].asked, TimeOf(hs, es, LastSave(hs, es, n)), hs[0].interval);
            var r := CallSpec(hs[n].mem, es[n].c);
            && hs[n + 1].mem == r.st
            && (!due || !r.out.Done? || !hs[n].active ==> hs[n + 1].file == hs[n].file && outs[n] == r.out)
            && (due && r.out.Done? && hs[n].active ==>
                  BackupRel(hs[n].(mem := r.st), es[n].io, es[n].now, hs[n + 1], outs[n]))
  {
    LastIsTimeOfSave(hs, es, outs, n);
    assert EventRel(hs[n], es[n], hs[n + 1], outs[n]);
    DueIffOverdue(es[n].asked, hs[n].last, hs[n].interval);
  }

  // ---------- Staleness and crashes ----------

  /** The file after event `n`: as it was at the start if nothing has saved, and
      otherwise the image of the store right after the last event that saved. */
  ghost predicate FileIsOf(hs: seq<HState>, es: seq<Event>, n: nat)
    requires |hs| == |es| + 1 && n <= |es|
  {
    var b := LastSave(hs, es, n);
    if b == 0 then hs[n].file == hs[0].file else Image(hs[n].file, hs[b].mem.store)
  }

  /** No mutation between the `b`th event and the `n`th that succeeded was made
      more than the store interval after the save at `b`. */
  ghost predicate AllRecent(hs: seq<HState>, es: seq<Event>, outs: seq<Outcome>, n: nat, b: nat)
    requires IsRun(hs, es, outs) && b <= n <= |es|
  {
    forall i :: b <= i < n && es[i].Mutate? && outs[i].Done? ==>
      !Overdue(es[i].asked, TimeOf(hs, es, b), hs[0].interval)
  }

  /** The file is as the last save left it, and only recent mutations are not in it. */
  ghost predicate Durable(hs: seq<HState>, es: seq<Event>, outs: seq<Outcome>, n: nat)
    requires IsRun(hs, es, outs) && n <= |es|
  {
    FileIsOf(hs, es, n) && AllRecent(hs, es, outs, n, LastSave(hs, es, n))
  }

  lemma {:induction false} StalenessStart(hs: seq<HState>, es: seq<Event>, outs: seq<Outcome>)
    requires IsRun(hs, es, outs)
    ensures Durable(hs, es, outs, 0)
  {
    assert LastSave(hs, es, 0) == 0;
  }

  lemma {:induction false} StalenessStep(hs: seq<HState>, es: seq<Event>, outs: seq<Outcome>,
                                         isCounter: string -> bool, n: nat)
    requires GoodRun(hs, es, outs, isCounter) && n < |es|
    requires Durable(hs, es, outs, n)
    ensures Durable(hs, es, outs, n + 1)
  {
    var h, e, h', out := hs[n], es[n], hs[n + 1], outs[n];
    GoodRunPrefix(hs, es, outs, isCounter, n);
    LastIsTimeOfSave(hs, es, outs, n);
    assert EventRel(h, e, h', out) && GoodEvent(h, e, isCounter);
    GoodStep(h, e, h', out, isCounter);
    if e.Mutate? {
      DueIffOverdue(e.asked, h.last, h.interval);
    }
  }

  /** At every moment of a good run the file is the image of the store as the last
      save left it, and every mutation that has succeeded since then was made within
      the store interval of that save. */
  lemma {:induction false} StalenessBound(hs: seq<HState>, es: seq<Event>, outs: seq<Outcome>,
                                          isCounter: string -> bool, n: nat)
    requires GoodRun(hs, es, outs, isCounter) && n <= |es|
    ensures Durable(hs, es, outs, n)
  {
    if n == 0 {
      StalenessStart(hs, es, outs);
    } else {
      StalenessBound(hs, es, outs, isCounter, n - 1);
      StalenessStep(hs, es, outs, isCounter, n - 1);
    }
  }

  /** A crash after any event of a good run: starting again on the file brings back
      the store as the last save left it, and every successful mutation that is
      lost was made within the store interval of that save. */
  lemma {:induction false} CrashLosesOnlyRecentMutations(hs: seq<HState>, es: seq<Event>, outs: seq<Outcome>,
                                                         isCounter: string -> bool, n: nat)
    requires GoodRun(hs, es, outs, isCounter) && n <= |es|
    requires Image(hs[0].file, hs[0].mem.store)
    ensures var b, again := LastSave(hs, es, n), OpenSpec(Some(hs[n].file), hs[n].interval, true);
            && again.0.mem == hs[b].mem && again.1.Done?
            && hs[b].mem == RunCalls(hs[0].mem, Calls(es[..b]))
            && AllRecent(hs, es, outs, n, b)
  {
    var b := LastSave(hs, es, n);
    StalenessBound(hs, es, outs, isCounter, n);
    GoodRunPrefix(hs, es, outs, isCounter, b);
    RestoreInvertsBackup(hs[n].file, hs[b].mem.store);
  }

  /** With store interval 0 and a clock that has moved on since the last save,
      every successful mutation is in the file when the call returns. */
  lemma {:induction false} ZeroIntervalWritesThrough(hs: seq<HState>, es: seq<Event>, outs: seq<Outcome>,
                                                     isCounter: string -> bool, n: nat)
    requires GoodRun(hs, es, outs, isCounter) && n < |es|
    requires hs[0].interval == 0
    requires es[n].Mutate? && outs[n].Done? && es[n].asked > TimeOf(hs, es, LastSave(hs, es, n))
    ensures Image(hs[n + 1].file, hs[n + 1].mem.store)
  {
    GoodRunPrefix(hs, es, outs, isCounter, n);
    LastIsTimeOfSave(hs, es, outs, n);
    GoodStep(hs[n], es[n], hs[n + 1], outs[n], isCounter);
    DueIffOverdue(es[n].asked, hs[n].last, 0);
  }

  // ---------- A new storage ----------

  /** A new storage counts from year 1 and time.Since saturates near 292 years: its
      first successful mutation writes a backup unless the interval is longer
      still, and then it writes nothing. */
  lemma {:induction false} FirstBackupIsDueIff(content: seq<Line>, interval: int, restore: bool, r: StepResult,
                                               io: Io, asked: int, now: int, h': HState, out: Outcome)
    requires OpenSpec(Some(content), interval, restore).1.Done? && asked >= 0 && Healthy(io)
    requires r.out.Done? && AllSafe(r.st.store)
    requires MutateRel(OpenSpec(Some(content), interval, restore).0, r, io, asked, now, h', out)
    ensures out.Done? && h'.mem == r.st
    ensures interval <= 9_223_372_036 ==> Image(h'.file, r.st.store)
    ensures interval > 9_223_372_036 ==> h'.file == content
  {
    var h := OpenSpec(Some(content), interval, restore).0;
    DueIffOverdue(asked, h.last, interval);
    if Overdue(asked, h.last, interval) {
      BackupSucceedsIff(h.(mem := r.st), io, now, h', out);
    }
  }

  /** A storage opened on a file without a restore starts empty, leaves the file
      alone until its first save, and that save replaces what the file held by the
      metrics of the new run. */
  lemma {:induction false} StartWithoutRestore(content: seq<Line>, interval: int, hs: seq<HState>, es: seq<Event>,
                                               outs: seq<Outcome>, isCounter: string -> bool, n: nat)
    requires IsRun(hs, es, outs) && hs[0] == OpenSpec(Some(content), interval, false).0
    requires forall i :: 0 <= i < |es| ==> GoodEvent(hs[i], es[i], isCounter)
    requires n <= |es|
    ensures hs[n].mem == RunCalls(EMPTY, Calls(es[..n]))
    ensures var b := LastSave(hs, es, n);
            if b == 0 then hs[n].file == content else Image(hs[n].file, RunCalls(EMPTY, Calls(es[..b])).store)
  {
    GoodRunPrefix(hs, es, outs, isCounter, n);
    GoodRunPrefix(hs, es, outs, isCounter, LastSave(hs, es, n));
    StalenessBound(hs, es, outs, isCounter, n);
  }

  /** Without a file the storage is memory: until a restart, which loses everything,
      every call does what it does in memory and ends as it does there, whatever
      the file system and the clock. */
  lemma {:induction false} WithoutFileIsMemory(interval: int, restore: bool, hs: seq<HState>, es: seq<Event>,
                                               outs: seq<Outcome>, n: nat)
    requires IsRun(hs, es, outs) && hs[0] == OpenSpec(None, interval, restore).0
    requires n <= |es| && forall i :: 0 <= i < n ==> !es[i].Restart?
    ensures hs[n] == hs[0].(mem := RunCalls(EMPTY, Calls(es[..n])))
    ensures forall i :: 0 <= i < n ==>
              outs[i] == if es[i].Mutate? then CallSpec(RunCalls(EMPTY, Calls(es[..i])), es[i].c).out else Done
    ensures n < |es| && es[n].Restart? ==> hs[n + 1].mem == EMPTY && outs[n].Done?
  {
    if n > 0 {
      WithoutFileIsMemory(interval, restore, hs, es, outs, n - 1);
      assert EventRel(hs[n - 1], es[n - 1], hs[n], outs[n - 1]);
      PrefixCalls(EMPTY, es, n);
    }
    if n < |es| {
      assert EventRel(hs[n], es[n], hs[n + 1], outs[n]);
    }
  }

  // ---------- A failed backup ----------

  lemma {:induction false} TornRestores(file: seq<Line>, s: Store, st: MemState)
    requires Partial(file, s) && !st.locked
    ensures RestoreSpec(file + [Garbage], st) == StepResult(RestoreSpec(file, st).st, Failed)
    decreases file
  {
    if file != [] {
      var j := file[0].j;
      JsonRoundTrip(Untyped(j.id, s[j.id].GetValue()));
      assert (file + [Garbage])[1..] == file[1..] + [Garbage];
      TornRestores(file[1..], s, InsertSpec(st, j.id, s[j.id]).st);
    }
  }

  /** A backup that fails after it has emptied the file has lost metrics: a start on
      what is left brings back only metrics that were there, not all of them, and
      ends with an error, which leaves backups off, exactly when the last record is
      torn. */
  lemma {:induction false} FailedBackupLoses(h: HState, io: Io, now: int, h': HState, out: Outcome)
    requires BackupRel(h, io, now, h', out) && !out.Done? && h.mem.store != map[]
    ensures h.closed || !io.truncates ==> h' == h
    ensures !h.closed && io.truncates ==>
              var again := OpenSpec(Some(h'.file), h.interval, true);
              && h'.mem == h.mem
              && (forall k :: k in again.0.mem.store ==> k in h.mem.store && again.0.mem.store[k] == h.mem.store[k])
              && (exists k :: k in h.mem.store && k !in again.0.mem.store)
              && (again.0.active <==> again.1.Done?)
              && (again.1.Done? <==> Intact(h'.file) == h'.file)
  {
    if !h.closed && io.truncates {
      var kept := Intact(h'.file);
      PartialRestores(kept, h.mem.store);
      if kept != h'.file {
        assert h'.file == kept + [Garbage];
        TornRestores(kept, h.mem.store, EMPTY);
      }
      FewerMissesOne(kept, h.mem.store);
    }
  }

  lemma {:induction false} FewerMissesOne(file: seq<Line>, s: Store)
    requires Partial(file, s) && (file == [] || |file| < |s| || !AllSafe(s)) && s != map[]
    ensures exists k :: k in s && k !in Ids(file)
  {
    if file == [] || !AllSafe(s) {
      MissesOne(file, s);
    } else if s.Keys <= Ids(file) {
      IdsAreFew(file);
      SubsetSize(s.Keys, Ids(file));
    }
  }

  lemma {:induction false} IdsAreFew(file: seq<Line>)
    ensures |Ids(file)| <= |file|
  {
    if file != [] {
      IdsAreFew(file[1..]);
      var first := if file[0].Rec? then {file[0].j.id} else {};
      assert Ids(file) <= first + Ids(file[1..]) by {
        forall k | k in Ids(file)
          ensures k in first + Ids(file[1..])
        {
          var i :| 0 <= i < |file| && file[i].Rec? && file[i].j.id == k;
          assert i > 0 ==> file[1..][i - 1] == file[i];
        }
      }
      SubsetSize(Ids(file), first + Ids(file[1..]));
    }
  }

  lemma {:induction false} SubsetSize<T>(a: set<T>, b: set<T>)
    requires a <= b
    ensures |a| <= |b|
  {
    if a != {} {
      var x :| x in a;
      SubsetSize(a - {x}, b - {x});
    }
  }

  // ---------- Stopping twice, and a close that fails ----------

  /** A second stop is an error and changes nothing; a stop whose file cannot be
      closed is one too, but it has saved and the handle is gone. With backups off a
      stop only closes the file. */
  lemma {:induction false} StopErrors(h: HState, io: Io, now: int, h': HState, out: Outcome)
    requires h.hasFile && CloseRel(h, io, now, h', out)
    ensures h.closed ==> h' == h && out.Failed?
    ensures !h.closed && !h.active ==> h' == h.(closed := true) && out == if io.closes then Done else Failed
    ensures h.active && !h.closed && io == Io(true, true, None, io.torn, false) && AllSafe(h.mem.store) && !h.encErr ==>
              out.Failed? && Image(h'.file, h.mem.store) && h'.closed && h'.last == now
  {
    if h.active && !h.closed && io == Io(true, true, None, io.torn, false) && AllSafe(h.mem.store) && !h.encErr {
      var healthy := io.(closes := true);
      if BackupRel(h, io, now, h', Failed) {
        BackupSucceedsIff(h, healthy, now, h', Failed);
      }
    }
  }
}
