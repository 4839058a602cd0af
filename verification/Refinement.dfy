// The table and the in-memory store are two representations of one abstract
// map: exactly when they agree, call by call and over whole runs.

module Refinement {
  import opened Wrappers
  import opened Int64
  import opened Models
  import opened AbstractStore
  import opened Database

  /** A row with exactly one value column set, the one its type names. */
  predicate RowOK(row: Row) {
    || (row.mtype == COUNTER && row.counter.Some? && row.gauge.None?)
    || (row.mtype == GAUGE && row.gauge.Some? && row.counter.None?)
  }

  /** Table `t` represents the abstract store `s`. */
  ghost predicate Represents(t: Table, s: Store) {
    && t.Keys == s.Keys
    && forall k :: k in t ==> Storable(k) && RowOK(t[k]) && ReadOne(t[k]) == Some(s[k])
  }

  /** Both readers of a represented table return the abstract reading. */
  lemma {:induction false} ReadersReturnTheStore(t: Table, s: Store, k: string)
    requires Represents(t, s)
    ensures Lookup(s, k) == if k in t then ReadOne(t[k]) else None
    ensures Lookup(s, k) == if k in t then ReadListed(t[k]) else None
  {
  }

  // ---------- The guards ----------

  /** `v` can be applied to the metric `r` by both stores: same kind, and no
      64-bit overflow, which memory wraps and the table rejects. */
  predicate UpdateOK(r: Reading, v: Any) {
    SameKind(r, v) && (v.Int? ==> InRange(r.c + v.i))
  }

  predicate RequestOK(s: Store, k: string, mtype: string, v: Any) {
    Storable(k) && if k in s then UpdateOK(s[k], v) else NewMetric(mtype, v).Some?
  }

  predicate ElementOK(s: Store, m: Metrics) {
    && Storable(m.id)
    && IsNumber(m.actual)
    && if m.id in s then UpdateOK(s[m.id], m.actual) else Varchar(TYPE_WIDTH, m.mtype) == Some(Fresh(m.actual).Kind())
  }

  predicate BatchOK(s: Store, xs: seq<Metrics>)
    decreases xs
  {
    xs != [] ==> ElementOK(s, xs[0]) && BatchOK(ElementSpec(MemState(s, false), xs[0]).st.store, xs[1..])
  }

  // ---------- Requests ----------

  /** Both stores complete the call and still represent the same map. */
  ghost predicate Agree(db: DbResult, mem: StepResult) {
    db.out.Done? && mem.out.Done? && Represents(db.t, mem.st.store)
  }

  /** The statement alone, as a batch runs it. */
  lemma {:induction false} SqlUpdateRefines(t: Table, s: Store, k: string, v: Any)
    requires Represents(t, s) && k in s && IsNumber(v)
    ensures UpdateOK(s[k], v) ==>
              && SqlUpdate(t, k, v).Some?
              && UpdateRule(s[k], v).Some?
              && Represents(SqlUpdate(t, k, v).value, s[k := UpdateRule(s[k], v).value])
    ensures SameKind(s[k], v) && SqlUpdate(t, k, v).Some? ==> UpdateOK(s[k], v)
  {
    if UpdateOK(s[k], v) {
      var t' := SqlUpdate(t, k, v).value;
      assert RowOK(t[k]) && ReadOne(t[k]) == Some(s[k]);
      assert RowOK(t'[k]) && ReadOne(t'[k]) == UpdateRule(s[k], v);
    }
  }

  lemma {:induction false} UpdateRefines(t: Table, s: Store, k: string, v: Any)
    requires Represents(t, s) && k in s
    ensures Agree(DbUpdateSpec(t, k, v, Some(s[k])), UpdateSpec(MemState(s, false), k, v)) <==> UpdateOK(s[k], v)
  {
    if IsNumber(v) {
      SqlUpdateRefines(t, s, k, v);
    }
  }

  lemma {:induction false} InsertRefines(t: Table, s: Store, k: string, r: Reading)
    requires Represents(t, s) && k !in s
    ensures Agree(DbInsertSpec(t, k, r), InsertSpec(MemState(s, false), k, r)) <==> Storable(k)
  {
    var db, mem := DbInsertSpec(t, k, r), InsertSpec(MemState(s, false), k, r);
    if Storable(k) {
      assert RowOK(db.t[k]) && ReadOne(db.t[k]) == Some(mem.st.store[k]);
    } else {
      assert k in mem.st.store;
    }
  }

  /** Starting from the same map, a request leaves both stores with the same map
      exactly when its guard holds, and then no upsert meets a row. */
  lemma {:induction false} RequestRefines(t: Table, s: Store, k: string, mtype: string, v: Any)
    requires Represents(t, s)
    ensures var db, mem := DbRequestSpec(t, k, mtype, v), RequestSpec(MemState(s, false), k, mtype, v);
            Agree(db, mem) <==> RequestOK(s, k, mtype, v)
    ensures RequestOK(s, k, mtype, v) && k !in t ==> !ConflictFires(t, k)
  {
    if k in s {
      UpdateRefines(t, s, k, v);
    } else if NewMetric(mtype, v).Some? {
      InsertRefines(t, s, k, NewMetric(mtype, v).value);
    }
  }

  // ---------- Batches ----------

  /** A defect of the table against the store that no later element repairs: a
      name the table cannot hold, or a value column of the wrong type. */
  ghost predicate Broken(t: Table, s: Store) {
    || (exists k :: k in s && !Storable(k))
    || (exists k :: k in t && BadRow(t[k]))
  }

  predicate BadRow(row: Row) {
    (row.mtype != COUNTER && row.counter.Some?) || (row.mtype != GAUGE && row.gauge.Some?)
  }

  lemma {:induction false} BrokenIsNotRepresented(t: Table, s: Store)
    requires Broken(t, s)
    ensures !Represents(t, s)
  {
    if k :| k in t && BadRow(t[k]) {
      assert !RowOK(t[k]);
    }
  }

  /** No element ever clears a value column or changes a type. */
  lemma {:induction false} ElementKeepsBroken(t: Table, s: Store, m: Metrics)
    requires Broken(t, s)
    requires TxElement(t, m).Some?
    ensures Broken(TxElement(t, m).value, ElementSpec(MemState(s, false), m).st.store)
  {
    var t', s' := TxElement(t, m).value, ElementSpec(MemState(s, false), m).st.store;
    if k :| k in s && !Storable(k) {
      assert k in s';
    } else {
      var k :| k in t && BadRow(t[k]);
      assert k in t' && BadRow(t'[k]);
    }
  }

  lemma {:induction false} BatchKeepsBroken(t: Table, s: Store, xs: seq<Metrics>)
    requires Broken(t, s)
    requires TxSpec(t, xs).Some?
    requires BatchSpec(MemState(s, false), xs).out.Done?
    ensures Broken(TxSpec(t, xs).value, BatchSpec(MemState(s, false), xs).st.store)
    decreases xs
  {
    if xs != [] {
      ElementKeepsBroken(t, s, xs[0]);
      var r := ElementSpec(MemState(s, false), xs[0]);
      ElementMeaning(MemState(s, false), xs[0]);
      assert r.st == MemState(r.st.store, false);
      BatchKeepsBroken(TxElement(t, xs[0]).value, r.st.store, xs[1..]);
    }
  }

  lemma {:induction false} ElementRefines(t: Table, s: Store, m: Metrics)
    requires Represents(t, s)
    ensures ElementOK(s, m) ==>
              && TxElement(t, m).Some?
              && ElementSpec(MemState(s, false), m).out.Done?
              && Represents(TxElement(t, m).value, ElementSpec(MemState(s, false), m).st.store)
              && (m.id !in t ==> !ConflictFires(t, m.id))
    ensures !ElementOK(s, m) && TxElement(t, m).Some? && ElementSpec(MemState(s, false), m).out.Done? ==>
              Broken(TxElement(t, m).value, ElementSpec(MemState(s, false), m).st.store)
  {
    if IsNumber(m.actual) {
      if m.id in s {
        assert TxElement(t, m) == SqlUpdate(t, m.id, m.actual);
        SqlUpdateRefines(t, s, m.id, m.actual);
      } else if TxElement(t, m).Some? {
        NewElementRefines(t, s, m);
      }
    }
  }

  lemma {:induction false} NewElementRefines(t: Table, s: Store, m: Metrics)
    requires Represents(t, s) && m.id !in s && IsNumber(m.actual) && TxElement(t, m).Some?
    ensures var t', s' := TxElement(t, m).value, s[m.id := Fresh(m.actual)];
            if ElementOK(s, m) then Represents(t', s') && !ConflictFires(t, m.id) else Broken(t', s')
  {
    var t', s' := TxElement(t, m).value, s[m.id := Fresh(m.actual)];
    if Storable(m.id) {
      assert m.id in t' && (if ElementOK(s, m) then RowOK(t'[m.id]) else BadRow(t'[m.id]));
    } else {
      assert m.id in s';
    }
  }

  /** A batch leaves both stores with the same map exactly when each element's
      guard holds at its turn. */
  lemma {:induction false} BatchRefines(t: Table, s: Store, xs: seq<Metrics>)
    requires Represents(t, s)
    ensures Agree(DbBatchSpec(t, xs), BatchSpec(MemState(s, false), xs)) <==> BatchOK(s, xs)
    decreases xs
  {
    if xs != [] {
      var t', r := TxElement(t, xs[0]), ElementSpec(MemState(s, false), xs[0]);
      ElementRefines(t, s, xs[0]);
      ElementMeaning(MemState(s, false), xs[0]);
      if ElementOK(s, xs[0]) {
        assert r.st == MemState(r.st.store, false);
        BatchRefines(t'.value, r.st.store, xs[1..]);
      } else if t'.Some? && r.out.Done? && TxSpec(t, xs).Some? && BatchSpec(MemState(s, false), xs).out.Done? {
        assert r.st == MemState(r.st.store, false);
        BatchKeepsBroken(t'.value, r.st.store, xs[1..]);
        BrokenIsNotRepresented(TxSpec(t, xs).value, BatchSpec(MemState(s, false), xs).st.store);
      }
    }
  }

  // ---------- Runs ----------

  datatype Op = Request(k: string, mtype: string, v: Any) | Batch(xs: seq<Metrics>)

  function MemOp(st: MemState, op: Op): StepResult {
    match op
    case Request(k, mtype, v) => RequestSpec(st, k, mtype, v)
    case Batch(xs) => BatchSpec(st, xs)
  }

  function DbOp(t: Table, op: Op): DbResult {
    match op
    case Request(k, mtype, v) => DbRequestSpec(t, k, mtype, v)
    case Batch(xs) => DbBatchSpec(t, xs)
  }

  predicate OpOK(s: Store, op: Op) {
    match op
    case Request(k, mtype, v) => RequestOK(s, k, mtype, v)
    case Batch(xs) => BatchOK(s, xs)
  }

  predicate RunOK(s: Store, ops: seq<Op>)
    decreases ops
  {
    ops != [] ==> OpOK(s, ops[0]) && RunOK(MemOp(MemState(s, false), ops[0]).st.store, ops[1..])
  }

  /** The two stores, driven by the same calls, agree after every one of them. */
  ghost predicate InLockStep(t: Table, s: Store, ops: seq<Op>)
    decreases ops
  {
    && Represents(t, s)
    && (ops != [] ==>
          var db, mem := DbOp(t, ops[0]), MemOp(MemState(s, false), ops[0]);
          db.out.Done? && mem.out.Done? && !mem.st.locked && InLockStep(db.t, mem.st.store, ops[1..]))
  }

  /** A successful call leaves the mutex free. */
  lemma {:induction false} DoneReleases(s: Store, op: Op)
    ensures var r := MemOp(MemState(s, false), op);
            r.out.Done? ==> !r.st.locked
  {
    if op.Batch? {
      BatchMeaning(MemState(s, false), op.xs);
    }
  }

  /** The table refines memory on a run exactly when every call meets its guard:
      names the table can hold, one kind per name, no 64-bit overflow. */
  lemma {:induction false} RunRefines(t: Table, s: Store, ops: seq<Op>)
    requires Represents(t, s)
    ensures InLockStep(t, s, ops) <==> RunOK(s, ops)
    decreases ops
  {
    if ops != [] {
      var db, mem := DbOp(t, ops[0]), MemOp(MemState(s, false), ops[0]);
      DoneReleases(s, ops[0]);
      match ops[0] {
        case Request(k, mtype, v) => RequestRefines(t, s, k, mtype, v);
        case Batch(xs) => BatchRefines(t, s, xs);
      }
      assert Agree(db, mem) <==> OpOK(s, ops[0]);
      if OpOK(s, ops[0]) {
        RunRefines(db.t, mem.st.store, ops[1..]);
      } else {
        assert InLockStep(db.t, mem.st.store, ops[1..]) ==> Represents(db.t, mem.st.store);
      }
    }
  }

  // ---------- A guard on the traffic alone ----------

  function Size(v: Any): nat {
    if !v.Int? then 0 else var i: int := v.i; if i < 0 then -i else i
  }

  function BatchSize(xs: seq<Metrics>): nat {
    if xs == [] then 0 else Size(xs[0].actual) + BatchSize(xs[1..])
  }

  function TotalSize(ops: seq<Op>): nat
    decreases ops
  {
    if ops == [] then 0
    else (match ops[0] case Request(_, _, v) => Size(v) case Batch(xs) => BatchSize(xs)) + TotalSize(ops[1..])
  }

  /** A name the table can hold, with a number of the kind `isCounter` assigns
      to the name and a matching declared type. */
  predicate SteadyValue(k: string, mtype: string, v: Any, isCounter: string -> bool) {
    Storable(k) && NewMetric(mtype, v).Some? && (isCounter(k) <==> v.Int?)
  }

  predicate SteadyOp(op: Op, isCounter: string -> bool) {
    match op
    case Request(k, mtype, v) => SteadyValue(k, mtype, v, isCounter)
    case Batch(xs) => forall m :: m in xs ==> SteadyValue(m.id, m.mtype, m.actual, isCounter)
  }

  ghost predicate SteadyStore(s: Store, isCounter: string -> bool, used: nat) {
    forall k :: k in s ==>
      && (isCounter(k) <==> s[k].Counter?)
      && (s[k].Counter? ==> 0 <= s[k].c + used && s[k].c <= used)
  }

  lemma {:induction false} ElementIsSteady(s: Store, m: Metrics, isCounter: string -> bool, used: nat)
    requires SteadyStore(s, isCounter, used) && SteadyValue(m.id, m.mtype, m.actual, isCounter)
    requires InRange(used + Size(m.actual))
    ensures ElementOK(s, m) && RequestOK(s, m.id, m.mtype, m.actual)
    ensures ElementSpec(MemState(s, false), m) == RequestSpec(MemState(s, false), m.id, m.mtype, m.actual)
    ensures ElementSpec(MemState(s, false), m).out.Done? && !ElementSpec(MemState(s, false), m).st.locked
    ensures SteadyStore(ElementSpec(MemState(s, false), m).st.store, isCounter, used + Size(m.actual))
  {
  }

  lemma {:induction false} BatchIsSteady(s: Store, xs: seq<Metrics>, isCounter: string -> bool, used: nat)
    requires SteadyStore(s, isCounter, used) && SteadyOp(Batch(xs), isCounter)
    requires InRange(used + BatchSize(xs))
    ensures BatchOK(s, xs)
    ensures SteadyStore(BatchSpec(MemState(s, false), xs).st.store, isCounter, used + BatchSize(xs))
    decreases xs
  {
    if xs != [] {
      ElementIsSteady(s, xs[0], isCounter, used);
      var r := ElementSpec(MemState(s, false), xs[0]);
      assert r.st == MemState(r.st.store, false);
      assert forall m :: m in xs[1..] ==> m in xs;
      BatchIsSteady(r.st.store, xs[1..], isCounter, used + Size(xs[0].actual));
    }
  }

  /** Traffic with short names, one kind per name and deltas whose absolute
      values add up to less than 2^63 keeps the two stores in lock step. */
  lemma {:induction false} SteadyTrafficRefines(t: Table, s: Store, ops: seq<Op>, isCounter: string -> bool, used: nat)
    requires Represents(t, s) && SteadyStore(s, isCounter, used)
    requires forall op :: op in ops ==> SteadyOp(op, isCounter)
    requires InRange(used + TotalSize(ops))
    ensures InLockStep(t, s, ops)
    decreases ops
  {
    if ops != [] {
      var db, mem := DbOp(t, ops[0]), MemOp(MemState(s, false), ops[0]);
      assert SteadyOp(ops[0], isCounter);
      match ops[0] {
        case Request(k, mtype, v) =>
          ElementIsSteady(s, Metrics(k, mtype, None, None, v), isCounter, used);
          RequestRefines(t, s, k, mtype, v);
          SteadyTrafficRefines(db.t, mem.st.store, ops[1..], isCounter, used + Size(v));
        case Batch(xs) =>
          BatchIsSteady(s, xs, isCounter, used);
          BatchRefines(t, s, xs);
          DoneReleases(s, ops[0]);
          SteadyTrafficRefines(db.t, mem.st.store, ops[1..], isCounter, used + BatchSize(xs));
      }
    }
  }

  // ---------- Rows under any steady traffic ----------

  /** Every row has one value column, the one its type and its name call for. */
  ghost predicate SteadyTable(t: Table, isCounter: string -> bool) {
    forall k :: k in t ==> Storable(k) && RowOK(t[k]) && (isCounter(k) <==> t[k].counter.Some?)
  }

  lemma {:induction false} ElementKeepsRows(t: Table, m: Metrics, isCounter: string -> bool)
    requires SteadyTable(t, isCounter) && SteadyValue(m.id, m.mtype, m.actual, isCounter)
    ensures TxElement(t, m).Some? ==> SteadyTable(TxElement(t, m).value, isCounter)
    ensures SteadyTable(DbRequestSpec(t, m.id, m.mtype, m.actual).t, isCounter)
    ensures m.id !in t ==> !ConflictFires(t, m.id)
  {
  }

  lemma {:induction false} BatchKeepsRows(t: Table, xs: seq<Metrics>, isCounter: string -> bool)
    requires SteadyTable(t, isCounter) && SteadyOp(Batch(xs), isCounter)
    ensures TxSpec(t, xs).Some? ==> SteadyTable(TxSpec(t, xs).value, isCounter)
    decreases xs
  {
    if xs != [] {
      ElementKeepsRows(t, xs[0], isCounter);
      assert forall m :: m in xs[1..] ==> m in xs;
      if TxElement(t, xs[0]).Some? {
        BatchKeepsRows(TxElement(t, xs[0]).value, xs[1..], isCounter);
      }
    }
  }

  function DbRun(t: Table, ops: seq<Op>): Table
    decreases ops
  {
    if ops == [] then t else DbRun(DbOp(t, ops[0]).t, ops[1..])
  }

  /** Over every run with one kind per name, calls that fail included, each row
      keeps exactly one value column and the two readers return the same. */
  lemma {:induction false} ReadersAgreeOverRuns(t: Table, ops: seq<Op>, isCounter: string -> bool)
    requires SteadyTable(t, isCounter)
    requires forall op :: op in ops ==> SteadyOp(op, isCounter)
    ensures SteadyTable(DbRun(t, ops), isCounter)
    ensures forall k :: k in DbRun(t, ops) ==>
              ReadOne(DbRun(t, ops)[k]).Some? && ReadOne(DbRun(t, ops)[k]) == ReadListed(DbRun(t, ops)[k])
    decreases ops
  {
    if ops != [] {
      assert SteadyOp(ops[0], isCounter);
      match ops[0] {
        case Request(k, mtype, v) => ElementKeepsRows(t, Metrics(k, mtype, None, None, v), isCounter);
        case Batch(xs) => BatchKeepsRows(t, xs, isCounter);
      }
      ReadersAgreeOverRuns(DbOp(t, ops[0]).t, ops[1..], isCounter);
    }
  }

  // ---------- Exactly when the readers disagree ----------

  ghost predicate ReadersAgree(t: Table) {
    forall k :: k in t ==> ReadOne(t[k]) == ReadListed(t[k])
  }

  /** Setting the column that `v` calls for leaves both columns of the row set. */
  predicate Crosses(row: Row, v: Any) {
    if v.Int? then row.gauge.Some? else row.counter.Some?
  }

  /** The upsert of `v` under `id` meets a row of the other kind and goes
      through. */
  predicate InsertSplits(t: Table, id: string, v: Any) {
    && IsNumber(v)
    && ConflictFires(t, id)
    && Crosses(t[Varchar(NAME_WIDTH, id).value], v)
    && (v.Int? ==> InRange(v.i + v.i))
  }

  /** A gauge for a counter that is there, or a new name that is cut to the name
      of a row of the other kind. An integer for a gauge that is there is lost,
      not stored. */
  predicate RequestSplits(t: Table, k: string, mtype: string, v: Any) {
    if k in t then IsText(k) && v.Flt? && t[k].counter.Some?
    else NewMetric(mtype, v).Some? && InsertSplits(t, k, v)
  }

  predicate ElementSplits(t: Table, m: Metrics) {
    if m.id in t then IsText(m.id) && m.actual.Flt? && t[m.id].counter.Some?
    else Varchar(TYPE_WIDTH, m.mtype).Some? && InsertSplits(t, m.id, m.actual)
  }

  /** The batch commits, and some element splits a row at its turn. */
  predicate BatchSplits(t: Table, xs: seq<Metrics>) {
    TxSpec(t, xs).Some? && SplitsAlong(t, xs)
  }

  predicate SplitsAlong(t: Table, xs: seq<Metrics>)
    decreases xs
  {
    && xs != []
    && TxElement(t, xs[0]).Some?
    && (ElementSplits(t, xs[0]) || SplitsAlong(TxElement(t, xs[0]).value, xs[1..]))
  }

  predicate OpSplits(t: Table, op: Op) {
    match op
    case Request(k, mtype, v) => RequestSplits(t, k, mtype, v)
    case Batch(xs) => BatchSplits(t, xs)
  }

  predicate RunSplits(t: Table, ops: seq<Op>)
    decreases ops
  {
    ops != [] && (OpSplits(t, ops[0]) || RunSplits(DbOp(t, ops[0]).t, ops[1..]))
  }

  /** After a request the readers still agree exactly when the request is not of
      the splitting kind; the condition reads the table before the call. */
  lemma {:induction false} RequestSplitsReadersIff(t: Table, k: string, mtype: string, v: Any)
    requires ReadersAgree(t)
    ensures ReadersAgree(DbRequestSpec(t, k, mtype, v).t) <==> !RequestSplits(t, k, mtype, v)
  {
    var t' := DbRequestSpec(t, k, mtype, v).t;
    if RequestSplits(t, k, mtype, v) {
      var name := if k in t then k else Varchar(NAME_WIDTH, k).value;
      assert name in t;
      ReadersAgreeIff(t'[name]);
    }
  }

  lemma {:induction false} ElementSplitsReadersIff(t: Table, m: Metrics)
    requires ReadersAgree(t) && TxElement(t, m).Some?
    ensures ReadersAgree(TxElement(t, m).value) <==> !ElementSplits(t, m)
  {
    var t' := TxElement(t, m).value;
    if ElementSplits(t, m) {
      var name := if m.id in t then m.id else Varchar(NAME_WIDTH, m.id).value;
      assert name in t;
      ReadersAgreeIff(t'[name]);
    }
  }

  /** No call clears a column: readers that disagree once disagree for good. */
  lemma {:induction false} ElementKeepsSplit(t: Table, m: Metrics)
    requires !ReadersAgree(t) && TxElement(t, m).Some?
    ensures !ReadersAgree(TxElement(t, m).value)
  {
    var k :| k in t && ReadOne(t[k]) != ReadListed(t[k]);
    var t' := TxElement(t, m).value;
    assert k in t' && ReadOne(t'[k]) != ReadListed(t'[k]);
  }

  lemma {:induction false} RequestKeepsSplit(t: Table, k: string, mtype: string, v: Any)
    requires !ReadersAgree(t)
    ensures !ReadersAgree(DbRequestSpec(t, k, mtype, v).t)
  {
    var j :| j in t && ReadOne(t[j]) != ReadListed(t[j]);
    var t' := DbRequestSpec(t, k, mtype, v).t;
    assert j in t' && ReadOne(t'[j]) != ReadListed(t'[j]);
  }

  lemma {:induction false} BatchKeepsSplit(t: Table, xs: seq<Metrics>)
    requires !ReadersAgree(t) && TxSpec(t, xs).Some?
    ensures !ReadersAgree(TxSpec(t, xs).value)
    decreases xs
  {
    if xs != [] {
      ElementKeepsSplit(t, xs[0]);
      BatchKeepsSplit(TxElement(t, xs[0]).value, xs[1..]);
    }
  }

  lemma {:induction false} BatchSplitsReadersIff(t: Table, xs: seq<Metrics>)
    requires ReadersAgree(t)
    ensures ReadersAgree(DbBatchSpec(t, xs).t) <==> !BatchSplits(t, xs)
    decreases xs
  {
    if xs != [] && TxSpec(t, xs).Some? {
      var t' := TxElement(t, xs[0]).value;
      ElementSplitsReadersIff(t, xs[0]);
      if ElementSplits(t, xs[0]) {
        BatchKeepsSplit(t', xs[1..]);
      } else {
        BatchSplitsReadersIff(t', xs[1..]);
      }
    }
  }

  lemma {:induction false} RunKeepsSplit(t: Table, ops: seq<Op>)
    requires !ReadersAgree(t)
    ensures !ReadersAgree(DbRun(t, ops))
    decreases ops
  {
    if ops != [] {
      match ops[0] {
        case Request(k, mtype, v) => RequestKeepsSplit(t, k, mtype, v);
        case Batch(xs) =>
          if TxSpec(t, xs).Some? {
            BatchKeepsSplit(t, xs);
          }
      }
      RunKeepsSplit(DbOp(t, ops[0]).t, ops[1..]);
    }
  }

  /** After any run of requests and batches, failing ones included, Get and
      GetAll agree on every name exactly when no call was of the splitting kind
      at its turn. */
  lemma {:induction false} ReadersAgreeAfterRunIff(t: Table, ops: seq<Op>)
    requires ReadersAgree(t)
    ensures ReadersAgree(DbRun(t, ops)) <==> !RunSplits(t, ops)
    decreases ops
  {
    if ops != [] {
      match ops[0] {
        case Request(k, mtype, v) => RequestSplitsReadersIff(t, k, mtype, v);
        case Batch(xs) => BatchSplitsReadersIff(t, xs);
      }
      if OpSplits(t, ops[0]) {
        RunKeepsSplit(DbOp(t, ops[0]).t, ops[1..]);
      } else {
        ReadersAgreeAfterRunIff(DbOp(t, ops[0]).t, ops[1..]);
      }
    }
  }

  // ---------- Where the guards fail ----------

  /** A gauge update on a counter row sets both columns before the handler
      panics: the readers then disagree and memory keeps the counter. */
  lemma {:induction false} GaugeOnCounterSplitsReaders()
    ensures var t := map["n" := Row(COUNTER, None, Some(1))];
            var db := DbRequestSpec(t, "n", GAUGE, Flt(Finite(2.0)));
            var mem := RequestSpec(MemState(map["n" := Counter(1)], false), "n", GAUGE, Flt(Finite(2.0)));
            && db.out == Panicked
            && ReadOne(db.t["n"]) == Some(Gauge(Finite(2.0)))
            && ReadListed(db.t["n"]) == Some(Counter(1))
            && mem == StepResult(MemState(map["n" := Counter(1)], true), Panicked)
  {
  }

  /** A counter value on a gauge row is lost without an error in a batch. */
  lemma {:induction false} CounterOnGaugeIsLost(t: Table, m: Metrics)
    requires SchemaHolds(t) && m.id in t && RowOK(t[m.id]) && t[m.id].mtype == GAUGE && m.actual.Int?
    ensures DbBatchSpec(t, [m]) == DbResult(t, Done)
  {
    assert TxSpec(t, [m]) == TxSpec(TxElement(t, m).value, []);
  }

  /** Two requests that both find a counter missing before either inserts it:
      the second upsert stores its own delta twice, which is the sum of the two
      deltas exactly when they are equal. */
  lemma {:induction false} FirstWriteRaceInTable(k: string, d: int64, e: int64)
    requires Storable(k) && InRange(e + e) && InRange(d + e)
    ensures var first := DbInsertSpec(map[], k, Counter(d));
            var second := DbInsertSpec(first.t, k, Counter(e));
            && first.out.Done? && second.out.Done? && ConflictFires(first.t, k)
            && ReadOne(second.t[k]) == Some(Counter(e + e))
            && (ReadOne(second.t[k]) == Some(Counter(d + e)) <==> d == e)
  {
  }

  /** A name padded with spaces beyond the column width is never found by the
      SELECT but meets its own row in the upsert, which doubles the new delta
      and drops the old one. */
  lemma {:induction false} PaddedNameReachesConflict(name: string, d: int64, e: int64)
    requires |name| == NAME_WIDTH && IsText(name) && InRange(e + e)
    ensures var padded := name + " ";
            var first := DbRequestSpec(map[], padded, COUNTER, Int(d));
            var second := DbRequestSpec(first.t, padded, COUNTER, Int(e));
            && first.out.Done? && second.out.Done?
            && ConflictFires(first.t, padded)
            && second.t == map[name := Row(COUNTER, None, Some(e + e))]
  {
    assert (name + " ")[..NAME_WIDTH] == name;
  }

  /** The second way to split the readers: a padded name of the other kind, whose
      request succeeds. */
  lemma {:induction false} PaddedNameSplitsReaders(name: string, d: int64, f: Float64)
    requires |name| == NAME_WIDTH && IsText(name)
    ensures var first := DbRequestSpec(map[], name, COUNTER, Int(d));
            var second := DbRequestSpec(first.t, name + " ", GAUGE, Flt(f));
            && first.out.Done? && second.out.Done?
            && name in second.t
            && ReadOne(second.t[name]) == Some(Gauge(f)) && ReadListed(second.t[name]) == Some(Counter(d))
  {
    assert (name + " ")[..NAME_WIDTH] == name;
  }

  /** A name with a zero character: memory takes it, the table refuses it before
      it looks for a row. */
  lemma {:induction false} ZeroCharacterNameOnlyInMemory(t: Table, d: int64)
    ensures DbRequestSpec(t, "a\0", COUNTER, Int(d)) == DbResult(t, Failed)
    ensures DbBatchSpec(t, [Metrics("a\0", COUNTER, None, None, Int(d))]) == DbResult(t, Failed)
    ensures RequestSpec(EMPTY, "a\0", COUNTER, Int(d)) == StepResult(MemState(map["a\0" := Counter(d)], false), Done)
  {
    assert "a\0"[1] == '\0';
  }
}
