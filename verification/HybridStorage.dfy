// internal/storage/hybrid.go: the in-memory store with a backup file behind it.
// The clock and the file system are parameters of the calls that consult them.

module Hybrid {
  import opened Wrappers
  import opened Models
  import opened AbstractStore
  import opened Memory

  /** What the JSON decoder meets in the file: a metric record, something it
      cannot decode, or a stray closing bracket, at which it stops reading. */
  datatype Line = Rec(j: JsonMetric) | Garbage | Stray

  /** How the file system treats one call: whether Truncate, Seek and Close
      succeed, how many records fit (None: all), and whether the record that does
      not fit leaves a torn part behind. */
  datatype Io = Io(truncates: bool, seeks: bool, room: Option<nat>, torn: bool, closes: bool)

  predicate Healthy(io: Io) {
    io.truncates && io.seeks && io.room.None? && io.closes
  }

  /** Times are Unix nanoseconds; a new storage starts at Go's zero time. */
  const ZERO_TIME: int := -62_135_596_800_000_000_000
  const SECOND: int := 1_000_000_000

  /** time.Since saturates at the ends of int64. */
  function Elapsed(now: int, last: int): int {
    if now - last > 0x7fff_ffff_ffff_ffff then 0x7fff_ffff_ffff_ffff
    else if now - last < -0x8000_0000_0000_0000 then -0x8000_0000_0000_0000
    else now - last
  }

  predicate Due(now: int, last: int, interval: int) {
    Elapsed(now, last) > interval * SECOND
  }

  /** `file` is what is on disk; `closed` says that Close has closed the handle. */
  datatype HState = HState(mem: MemState, file: seq<Line>, hasFile: bool, last: int, interval: int, active: bool,
                           encErr: bool, closed: bool)

  // ---------- The file ----------

  /** The record Backup writes for one metric. */
  function Encoded(k: string, r: Reading): Result<JsonMetric, JsonError> {
    MarshalJSON(Untyped(k, r.GetValue()))
  }

  /** Some of the metrics of `s`, each once, in any order. */
  ghost predicate Partial(file: seq<Line>, s: Store) {
    && (forall i :: 0 <= i < |file| ==>
          file[i].Rec? && file[i].j.id in s && Encoded(file[i].j.id, s[file[i].j.id]) == Success(file[i].j))
    && (forall i, j :: 0 <= i < j < |file| ==> file[i] != file[j])
  }

  ghost function Ids(file: seq<Line>): set<string> {
    set i | 0 <= i < |file| && file[i].Rec? :: file[i].j.id
  }

  /** All of them. */
  ghost predicate Image(file: seq<Line>, s: Store) {
    Partial(file, s) && Ids(file) == s.Keys
  }

  /** The records of a file whose last write may have been torn. */
  function Intact(file: seq<Line>): seq<Line> {
    if file != [] && file[|file| - 1].Garbage? then file[..|file| - 1] else file
  }

  /** The loop invariant of Backup: all but the metrics in `todo` are written. */
  ghost predicate Written(file: seq<Line>, s: Store, todo: set<string>)
    requires todo <= s.Keys
  {
    && Partial(file, s)
    && Ids(file) == s.Keys - todo
    && |file| + |todo| == |s|
    && forall k :: k in s && k !in todo ==> s[k].JsonSafe()
  }

  lemma {:induction false} IdsExtends(file: seq<Line>, j: JsonMetric)
    ensures Ids(file + [Rec(j)]) == Ids(file) + {j.id}
  {
    var longer := file + [Rec(j)];
    forall k
      ensures k in Ids(longer) <==> k in Ids(file) + {j.id}
    {
      assert longer[|file|] == Rec(j);
      if k in Ids(file) {
        var i :| 0 <= i < |file| && file[i].Rec? && file[i].j.id == k;
        assert longer[i] == file[i];
      }
    }
  }

  lemma {:induction false} PartialExtends(file: seq<Line>, s: Store, k: string, j: JsonMetric)
    requires Partial(file, s) && k in s && k !in Ids(file)
    requires Encoded(k, s[k]) == Success(j)
    ensures Partial(file + [Rec(j)], s)
  {
    var longer := file + [Rec(j)];
    assert j.id == k && longer[|file|] == Rec(j);
    forall i | 0 <= i < |file|
      ensures longer[i] == file[i] && file[i] != Rec(j)
    {
      assert file[i].j.id in Ids(file);
    }
  }

  lemma {:induction false} WrittenExtends(file: seq<Line>, s: Store, todo: set<string>, k: string, j: JsonMetric)
    requires todo <= s.Keys && Written(file, s, todo) && k in todo
    requires Encoded(k, s[k]) == Success(j)
    ensures Written(file + [Rec(j)], s, todo - {k})
  {
    IdsExtends(file, j);
    PartialExtends(file, s, k, j);
    assert j.id == k && s[k].JsonSafe();
    assert s.Keys - (todo - {k}) == (s.Keys - todo) + {k};
  }

  // ---------- The operations as relations on states ----------

  /** Writing the records of `s` to an empty file, in some order: all of them,
      or some of them up to a failure. A write error sticks to the encoder,
      which then fails on its first record; a value JSON rejects does not. */
  ghost predicate WriteRel(s: Store, encErr: bool, io: Io, file: seq<Line>, encErr': bool, out: Outcome) {
    if out.Done? then
      Image(file, s) && encErr' == encErr && (encErr ==> file == []) && Fits(io, |file|)
    else
      && out.Failed?
      && Partial(Intact(file), s)
      && (|| (encErr && encErr' && file == [] && s != map[])
          || (!encErr && !encErr' && Intact(file) == file && !AllSafe(s))
          || (!encErr && encErr' && io.room == Some(|Intact(file)|) && |Intact(file)| < |s|))
  }

  predicate Fits(io: Io, n: nat) {
    io.room.Some? ==> n <= io.room.value
  }

  lemma {:induction false} WriteCompletes(file: seq<Line>, s: Store, encErr: bool, io: Io)
    requires Written(file, s, {})
    requires (file != [] ==> !encErr) && Fits(io, |file|)
    ensures WriteRel(s, encErr, io, file, encErr, Done)
  {
  }

  /** The three ways a write can stop. */
  lemma {:induction false} WriteStops(before: seq<Line>, after: seq<Line>, s: Store, k: string, todo: set<string>,
                                      encErr: bool, encErr': bool, io: Io)
    requires todo <= s.Keys && k in todo && Written(before, s, todo)
    requires (before != [] ==> !encErr) && Fits(io, |before|)
    requires encErr || Encoded(k, s[k]).Failure? || io.room == Some(|before|)
    requires encErr || !encErr' ==> after == before && encErr' == encErr
    requires encErr' && !encErr ==> io.room == Some(|before|) && (after == before || after == before + [Garbage])
    requires !encErr' ==> Encoded(k, s[k]).Failure?
    ensures WriteRel(s, encErr, io, after, encErr', Failed)
  {
    assert Intact(after) == before;
    assert |before| < |s| by {
      assert todo != {} && |todo| > 0;
    }
    assert Encoded(k, s[k]).Failure? <==> !s[k].JsonSafe();
  }

  /** Backup truncates before it writes; a closed file cannot be truncated. */
  ghost predicate BackupRel(h: HState, io: Io, now: int, h': HState, out: Outcome) {
    var s := h.mem.store;
    if h.closed || !io.truncates then h' == h && out == Failed
    else if !io.seeks then h' == h.(file := []) && out == Failed
    else
      && h' == h.(file := h'.file, last := now, encErr := h'.encErr)
      && WriteRel(s, h.encErr, io, h'.file, h'.encErr, out)
  }

  /** backupCaller. */
  ghost predicate CallerRel(h: HState, io: Io, asked: int, now: int, h': HState, out: Outcome) {
    if !h.active || !Due(asked, h.last, h.interval) then h' == h && out == Done
    else BackupRel(h, io, now, h', out)
  }

  /** A mutation: on the in-memory store first, then the backup if it is due. */
  ghost predicate MutateRel(h: HState, r: StepResult, io: Io, asked: int, now: int, h': HState, out: Outcome) {
    if !r.out.Done? then h' == h.(mem := r.st) && out == r.out
    else CallerRel(h.(mem := r.st), io, asked, now, h', out)
  }

  /** Closing the file, if there is one; closing it twice is an error. */
  function FileClosed(h: HState, io: Io): (HState, Outcome) {
    if !h.hasFile then (h, Done)
    else (h.(closed := true), if h.closed || !io.closes then Failed else Done)
  }

  /** A final backup if backups are on; the file is closed unless that fails. */
  ghost predicate CloseRel(h: HState, io: Io, now: int, h': HState, out: Outcome) {
    if !h.active then (h', out) == FileClosed(h, io)
    else
      || (out.Failed? && BackupRel(h, io, now, h', Failed))
      || (var saved := h'.(closed := h.closed);
          BackupRel(h, io, now, saved, Done) && (h', out) == FileClosed(saved, io))
  }

  /** The loop of Restore. */
  function RestoreSpec(lines: seq<Line>, st: MemState): StepResult
    decreases lines
  {
    if lines == [] || lines[0].Stray? then StepResult(st, Done)
    else if lines[0].Garbage? then StepResult(st, Failed)
    else
      match UnmarshalJSON(lines[0].j)
      case Failure(_) => StepResult(st, Failed)
      case Success(m) =>
        if !IsNumber(m.actual) then StepResult(st, Failed)
        else
          var r := InsertSpec(st, m.id, Fresh(m.actual));
          if r.out.Done? then RestoreSpec(lines[1..], r.st) else r
  }

  /** NewHybridStorage: backups are on iff there is a file and the restore, if
      asked for, did not fail. */
  function OpenSpec(content: Option<seq<Line>>, interval: int, restore: bool): (HState, Outcome) {
    var empty := HState(EMPTY, if content.Some? then content.value else [], content.Some?,
                        ZERO_TIME, interval, content.Some?, false, false);
    if content.None? || !restore then (empty, Done)
    else
      var r := RestoreSpec(content.value, empty.mem);
      (empty.(mem := r.st, active := r.out.Done?), r.out)
  }

  class HybridStorage {
    const mem: MemStorage
    const hasFile: bool
    const storeInterval: int
    var file: seq<Line>
    var lastStored: int
    var backupActive: bool
    var encErr: bool
    var closed: bool

    ghost predicate Valid()
      reads this, mem
    {
      mem.Valid()
    }

    ghost function State(): HState
      reads this, mem, mem.values.Values
    {
      HState(mem.State(), file, hasFile, lastStored, storeInterval, backupActive, encErr, closed)
    }

    constructor (content: Option<seq<Line>>, storeInterval: int)
      ensures Valid() && fresh(mem) && mem.values == map[]
      ensures State() == OpenSpec(content, storeInterval, false).0
    {
      var backupActive := content.Some?;
      this.mem := new MemStorage();
      this.hasFile := content.Some?;
      this.storeInterval := storeInterval;
      this.file := if content.Some? then content.value else [];
      this.lastStored := ZERO_TIME;
      this.backupActive := backupActive;
      this.encErr, this.closed := false, false;
    }

    method Insert(key: string, m: Metric, asked: int, now: int, io: Io) returns (out: Outcome)
      requires Valid()
      modifies this, mem
      ensures mem.values == if old(mem.locked) then old(mem.values) else old(mem.values)[key := m]
      ensures (forall k :: k in old(mem.values) && k != key ==> old(mem.values)[k] != m) ==> Valid()
      ensures MutateRel(old(State()), InsertSpec(old(mem.State()), key, m.val), io, asked, now, State(), out)
    {
      out := mem.Insert(key, m);
      if out.Done? {
        out := BackupCaller(asked, now, io);
      }
    }

    method Update(key: string, v: Any, asked: int, now: int, io: Io) returns (out: Outcome)
      requires Valid()
      modifies this, mem, if key in mem.values then {mem.values[key]} else {}
      ensures Valid() && mem.values == old(mem.values)
      ensures MutateRel(old(State()), UpdateSpec(old(mem.State()), key, v), io, asked, now, State(), out)
    {
      out := mem.Update(key, v);
      if out.Done? {
        out := BackupCaller(asked, now, io);
      }
    }

    method BatchUpdate(xs: seq<Metrics>, asked: int, now: int, io: Io) returns (out: Outcome)
      requires Valid()
      modifies this, mem, mem.values.Values
      ensures Valid()
      ensures MutateRel(old(State()), BatchSpec(old(mem.State()), xs), io, asked, now, State(), out)
    {
      out := mem.BatchUpdate(xs);
      if out.Done? {
        out := BackupCaller(asked, now, io);
      }
    }

    method BackupCaller(asked: int, now: int, io: Io) returns (out: Outcome)
      modifies this
      ensures CallerRel(old(State()), io, asked, now, State(), out)
    {
      if !backupActive { return Done; }
      if Due(asked, lastStored, storeInterval) {
        out := Backup(now, io);
      } else {
        out := Done;
      }
    }

    /** json.Encoder.Encode on the file: a marshalling error is forgotten, a
        write error is not. */
    method Encode(key: string, v: Any, io: Io) returns (out: Outcome)
      modifies this`file, this`encErr
      ensures out == Done || out == Failed
      ensures out.Done? <==> !old(encErr) && MarshalJSON(Untyped(key, v)).Success? && io.room != Some(|old(file)|)
      ensures out.Done? ==> !encErr && file == old(file) + [Rec(MarshalJSON(Untyped(key, v)).value)]
      ensures out.Failed? && encErr && !old(encErr) ==>
                io.room == Some(|old(file)|) && (file == old(file) || file == old(file) + [Garbage])
      ensures out.Failed? && (old(encErr) || !encErr) ==> file == old(file) && encErr == old(encErr)
      ensures out.Failed? && !encErr ==> MarshalJSON(Untyped(key, v)).Failure?
    {
      if encErr { return Failed; }
      var encoded := MarshalJSON(Untyped(key, v));
      if encoded.Failure? { return Failed; }
      if io.room == Some(|file|) {
        encErr := true;
        if io.torn {
          file := file + [Garbage];
        }
        return Failed;
      }
      file := file + [Rec(encoded.value)];
      out := Done;
    }

    /** Truncates first, then writes one record per metric in map order. */
    method Backup(now: int, io: Io) returns (out: Outcome)
      modifies this
      ensures BackupRel(old(State()), io, now, State(), out)
    {
      ghost var h := State();
      if closed || !io.truncates { return Failed; }
      file := [];
      if !io.seeks { return Failed; }
      lastStored := now;
      var items := mem.GetAll();
      out := WriteAll(items, h.mem.store, io);
      assert mem.Contents() == h.mem.store;
    }

    /** The loop of Backup, on an empty file. */
    method WriteAll(items: map<string, Metric>, ghost s: Store, io: Io) returns (out: Outcome)
      requires items.Keys == s.Keys && forall k :: k in items ==> items[k].val == s[k]
      requires file == []
      modifies this`file, this`encErr
      ensures WriteRel(s, old(encErr), io, file, encErr, out)
    {
      var todo := items.Keys;
      while todo != {}
        invariant todo <= s.Keys
        invariant encErr == old(encErr)
        invariant Written(file, s, todo)
        invariant (file != [] ==> !encErr) && Fits(io, |file|)
        decreases |todo|
      {
        var key :| key in todo;
        ghost var before := file;
        var reading := items[key].val;
        assert reading == s[key];
        out := Encode(key, reading.GetValue(), io);
        if !out.Done? {
          WriteStops(before, file, s, key, todo, old(encErr), encErr, io);
          return;
        }
        WrittenExtends(before, s, todo, key, MarshalJSON(Untyped(key, reading.GetValue())).value);
        todo := todo - {key};
      }
      WriteCompletes(file, s, encErr, io);
      out := Done;
    }

    method Close(now: int, io: Io) returns (out: Outcome)
      modifies this
      ensures CloseRel(old(State()), io, now, State(), out)
    {
      if backupActive {
        out := Backup(now, io);
        if !out.Done? { return; }
      }
      if !hasFile { return Done; }
      out := if closed || !io.closes then Failed else Done;
      closed := true;
    }

    /** Backups are off while the file is read, so the inserts write nothing; a
        failure leaves them off. */
    method Restore() returns (out: Outcome)
      requires Valid()
      modifies this, mem
      ensures Valid()
      ensures !old(backupActive) ==> State() == old(State()) && out == Done
      ensures old(backupActive) ==>
                var r := RestoreSpec(old(file), old(mem.State()));
                && State() == old(State()).(mem := r.st, active := r.out.Done?)
                && out == r.out
    {
      if !backupActive { return Done; }
      backupActive := false;
      out := ReadLines();
      if out.Done? {
        backupActive := true;
      }
    }

    /** The loop of Restore. */
    method ReadLines() returns (out: Outcome)
      requires Valid() && !backupActive
      modifies this, mem
      ensures Valid()
      ensures State() == old(State()).(mem := mem.State())
      ensures StepResult(mem.State(), out) == RestoreSpec(file, old(mem.State()))
    {
      ghost var h := State();
      var i := 0;
      while i < |file| && !file[i].Stray?
        invariant 0 <= i <= |file|
        invariant Valid()
        invariant State() == h.(mem := mem.State())
        invariant RestoreSpec(file[i..], mem.State()) == RestoreSpec(h.file, h.mem)
      {
        assert file[i..][0] == file[i] && file[i..][1..] == file[i + 1..];
        if file[i].Garbage? { return Failed; }
        var decoded := UnmarshalJSON(file[i].j);
        if decoded.Failure? { return Failed; }
        var metric := decoded.value;
        if !IsNumber(metric.actual) { return Failed; }
        var m := new Metric(Fresh(metric.actual));
        out := Insert(metric.id, m, 0, 0, Io(true, true, None, false, true));
        if !out.Done? { return; }
        i := i + 1;
      }
      out := Done;
    }
  }

  /** The second storage call of a handler whose Get found `metric`, or nil. */
  method WriteAfterGet(s: HybridStorage, metric: Metric?, k: string, mtype: string, v: Any, asked: int, now: int,
                       io: Io)
    returns (out: Outcome)
    requires s.Valid() && !s.mem.locked && (metric != null <==> k in s.mem.values)
    modifies s, s.mem, s.mem.values.Values
    ensures s.Valid()
    ensures MutateRel(old(s.State()), WriteSpec(old(s.mem.State()), metric != null, k, mtype, v), io, asked, now,
                      s.State(), out)
  {
    if metric != null {
      out := s.Update(k, v, asked, now, io);
    } else {
      var created := NewMetric(mtype, v);
      if created.None? { return Panicked; }
      var m := new Metric(created.value);
      out := s.Insert(k, m, asked, now, io);
    }
  }

  /** The storage calls of a handler: Get, then Update or Insert. */
  method GetThenWrite(s: HybridStorage, k: string, mtype: string, v: Any, asked: int, now: int, io: Io)
    returns (out: Outcome)
    requires s.Valid()
    modifies s, s.mem, s.mem.values.Values
    ensures s.Valid()
    ensures MutateRel(old(s.State()), RequestSpec(old(s.mem.State()), k, mtype, v), io, asked, now, s.State(), out)
  {
    ghost var h, st := s.State(), s.mem.State();
    var metric;
    metric, out := s.mem.Get(k);
    assert s.State() == h && s.mem.State() == st;
    if out.Done? {
      assert RequestSpec(st, k, mtype, v) == WriteSpec(st, metric != null, k, mtype, v);
      out := WriteAfterGet(s, metric, k, mtype, v, asked, now, io);
    }
  }

  /** `disk` is what the file of that name holds, None if it can be neither
      opened nor created; a nil or empty name asks for no file. */
  method NewHybridStorage(filename: Option<string>, disk: Option<seq<Line>>, storeInterval: Option<int>,
                          restore: Option<bool>)
    returns (storage: HybridStorage?, out: Outcome)
    ensures var named := filename.Some? && filename.value != "";
            if storeInterval.None? || (named && disk.None?) then storage == null && out == Failed
            else
              && storage != null && fresh(storage) && storage.Valid()
              && (storage.State(), out)
                 == OpenSpec(if named then disk else None, storeInterval.value, restore == Some(true))
  {
    if storeInterval.None? { return null, Failed; }
    var content := None;
    if filename.Some? && filename.value != "" {
      if disk.None? { return null, Failed; }
      content := disk;
    }
    storage := new HybridStorage(content, storeInterval.value);
    out := Done;
    if restore == Some(true) {
      out := storage.Restore();
    }
  }
}
