// internal/storage/db.go: the store as rows of an SQL table with two nullable
// value columns. A statement is a function from tables to tables; None is an
// SQL error, which leaves the table alone.

module Database {
  import opened Wrappers
  import opened Int64
  import opened Models
  import opened AbstractStore
  import opened Memory

  datatype Row = Row(mtype: string, gauge: Option<Float64>, counter: Option<int64>)

  /** metric_name carries a unique index, so the table is a map. */
  type Table = map<string, Row>

  datatype DbResult = DbResult(t: Table, out: Outcome)

  const NAME_WIDTH: nat := 30
  const TYPE_WIDTH: nat := 7

  /** PostgreSQL text holds every character but code zero; a statement with such
      a parameter is an error. */
  predicate IsText(s: string) {
    '\0' !in s
  }

  /** Storing into VARCHAR(n): longer text is an error, except that PostgreSQL
      cuts off excess characters that are all spaces. */
  function Varchar(n: nat, s: string): Option<string> {
    if !IsText(s) then None
    else if |s| <= n then Some(s)
    else if forall i :: n <= i < |s| ==> s[i] == ' ' then Some(s[..n])
    else None
  }

  // ---------- The statements ----------

  /** SET value_counter=value_counter+d: NULL stays NULL, BIGINT overflow is an
      error, a missing row is not. */
  function SqlUpdateCounter(t: Table, id: string, d: int64): Option<Table> {
    if !IsText(id) then None
    else if id !in t || t[id].counter.None? then Some(t)
    else if InRange(t[id].counter.value + d) then
      Some(t[id := t[id].(counter := Some(t[id].counter.value + d))])
    else None
  }

  function SqlUpdateGauge(t: Table, id: string, f: Float64): Option<Table> {
    if !IsText(id) then None
    else if id !in t then Some(t)
    else Some(t[id := t[id].(gauge := Some(f))])
  }

  /** The upsert: on conflict it stores EXCLUDED.value_counter+$3, which is d+d. */
  function SqlInsertCounter(t: Table, id: string, mtype: string, d: int64): Option<Table> {
    match (Varchar(NAME_WIDTH, id), Varchar(TYPE_WIDTH, mtype))
    case (Some(name), Some(ty)) =>
      if name !in t then Some(t[name := Row(ty, None, Some(d))])
      else if InRange(d + d) then Some(t[name := t[name].(counter := Some(d + d))])
      else None
    case _ => None
  }

  function SqlInsertGauge(t: Table, id: string, mtype: string, f: Float64): Option<Table> {
    match (Varchar(NAME_WIDTH, id), Varchar(TYPE_WIDTH, mtype))
    case (Some(name), Some(ty)) =>
      if name !in t then Some(t[name := Row(ty, Some(f), None)])
      else Some(t[name := t[name].(gauge := Some(f))])
    case _ => None
  }

  /** A name the metric_name column holds as it is. */
  predicate Storable(k: string) {
    |k| <= NAME_WIDTH && IsText(k)
  }

  /** An INSERT of `id` meets a row of the same (stored) name. */
  predicate ConflictFires(t: Table, id: string) {
    Varchar(NAME_WIDTH, id).Some? && Varchar(NAME_WIDTH, id).value in t
  }

  // ---------- The two readers ----------

  /** Get prefers the gauge column. */
  function ReadOne(row: Row): Option<Reading> {
    if row.gauge.Some? then Some(Gauge(row.gauge.value))
    else if row.counter.Some? then Some(Counter(row.counter.value))
    else None
  }

  /** GetAll lets the counter column overwrite the gauge. */
  function ReadListed(row: Row): Option<Reading> {
    if row.counter.Some? then Some(Counter(row.counter.value))
    else if row.gauge.Some? then Some(Gauge(row.gauge.value))
    else None
  }

  /** The readers agree on a row unless both of its columns are set. */
  lemma {:induction false} ReadersAgreeIff(row: Row)
    ensures ReadOne(row) == ReadListed(row) <==> row.gauge.None? || row.counter.None?
  {
  }

  // ---------- The operations ----------

  function DbInsertSpec(t: Table, k: string, r: Reading): DbResult {
    var after := match r
      case Counter(c) => SqlInsertCounter(t, k, COUNTER, c)
      case Gauge(g) => SqlInsertGauge(t, k, GAUGE, g);
    if after.Some? then DbResult(after.value, Done) else DbResult(t, Failed)
  }

  function SqlUpdate(t: Table, k: string, v: Any): Option<Table> {
    match v
    case Int(d) => SqlUpdateCounter(t, k, d)
    case Flt(f) => SqlUpdateGauge(t, k, f)
    case _ => Some(t)
  }

  /** The statement first; then the caller's copy of the metric, whose panic
      comes too late to undo the statement. */
  function DbUpdateSpec(t: Table, k: string, v: Any, copy: Option<Reading>): DbResult {
    match SqlUpdate(t, k, v)
    case None => DbResult(t, Failed)
    case Some(t') => DbResult(t', if copy.Some? && SameKind(copy.value, v) then Done else Panicked)
  }

  /** A request nobody interrupts: Get, then Update or Insert. */
  function DbRequestSpec(t: Table, k: string, mtype: string, v: Any): DbResult {
    if !IsText(k) then DbResult(t, Failed)
    else if k in t then
      match ReadOne(t[k])
      case None => DbResult(t, Failed)
      case Some(r) => DbUpdateSpec(t, k, v, Some(r))
    else
      match NewMetric(mtype, v)
      case None => DbResult(t, Panicked)
      case Some(r) => DbInsertSpec(t, k, r)
  }

  /** One iteration of the loop in DBStorage.BatchUpdate: SELECT COUNT(*), then
      the statement. */
  function TxElement(t: Table, m: Metrics): Option<Table> {
    if !IsText(m.id) then None
    else match m.actual
    case Int(d) => if m.id in t then SqlUpdateCounter(t, m.id, d) else SqlInsertCounter(t, m.id, m.mtype, d)
    case Flt(f) => if m.id in t then SqlUpdateGauge(t, m.id, f) else SqlInsertGauge(t, m.id, m.mtype, f)
    case _ => None
  }

  /** The whole batch inside the transaction: each element sees the rows the
      earlier ones inserted. */
  function TxSpec(t: Table, xs: seq<Metrics>): Option<Table>
    decreases xs
  {
    if xs == [] then Some(t)
    else
      match TxElement(t, xs[0])
      case None => None
      case Some(t') => TxSpec(t', xs[1..])
  }

  function DbBatchSpec(t: Table, xs: seq<Metrics>): DbResult {
    match TxSpec(t, xs)
    case None => DbResult(t, Failed)
    case Some(t') => DbResult(t', Done)
  }

  /** A value that is no number fails the whole batch, wherever it stands. */
  lemma {:induction false} NonNumberFailsBatch(t: Table, xs: seq<Metrics>, i: nat)
    requires i < |xs| && !IsNumber(xs[i].actual)
    ensures TxSpec(t, xs).None?
    decreases xs
  {
    if i > 0 && TxElement(t, xs[0]).Some? {
      NonNumberFailsBatch(TxElement(t, xs[0]).value, xs[1..], i - 1);
    }
  }

  lemma {:induction false} NonNumbersFailBatch(t: Table, xs: seq<Metrics>)
    ensures (exists m :: m in xs && !IsNumber(m.actual)) ==> TxSpec(t, xs).None?
  {
    if i: nat :| i < |xs| && !IsNumber(xs[i].actual) {
      NonNumberFailsBatch(t, xs, i);
    }
  }

  /** What the column types of the table guarantee. */
  ghost predicate SchemaHolds(t: Table) {
    forall k :: k in t ==> Storable(k) && |t[k].mtype| <= TYPE_WIDTH
  }

  class DBStorage {
    var rows: Table

    ghost predicate Valid()
      reads this
    {
      SchemaHolds(rows)
    }

    constructor ()
      ensures Valid() && rows == map[]
    {
      rows := map[];
    }

    /** Returns a copy of the row, nil for a missing row. */
    method Get(key: string) returns (m: Metric?, out: Outcome)
      ensures out == if !IsText(key) || (key in rows && ReadOne(rows[key]).None?) then Failed else Done
      ensures m != null <==> IsText(key) && key in rows && ReadOne(rows[key]).Some?
      ensures m != null ==> fresh(m) && ReadOne(rows[key]) == Some(m.val)
    {
      m := null;
      if !IsText(key) { return null, Failed; }
      if key !in rows { return null, Done; }
      var row := rows[key];
      if row.gauge.Some? {
        m := new Metric(Gauge(row.gauge.value));
        return m, Done;
      }
      if row.counter.Some? {
        m := new Metric(Counter(row.counter.value));
        return m, Done;
      }
      out := Failed;
    }

    method Insert(key: string, m: Metric?) returns (out: Outcome)
      requires Valid()
      modifies this
      ensures Valid()
      ensures m == null ==> out == Failed && rows == old(rows)
      ensures m != null ==> DbResult(rows, out) == DbInsertSpec(old(rows), key, m.val)
    {
      if m == null { return Failed; }
      var after;
      match m.val {
        case Counter(c) => after := SqlInsertCounter(rows, key, COUNTER, c);
        case Gauge(g) => after := SqlInsertGauge(rows, key, GAUGE, g);
      }
      if after.None? { return Failed; }
      rows := after.value;
      out := Done;
    }

    /** `metric` is the caller's copy from Get. */
    method Update(key: string, v: Any, metric: Metric?) returns (out: Outcome)
      requires Valid()
      modifies this, metric
      ensures Valid()
      ensures var copy := if metric == null then None else Some(old(metric.val));
              DbResult(rows, out) == DbUpdateSpec(old(rows), key, v, copy)
      ensures metric == null ==> !out.Done?
      ensures key !in old(rows) ==> rows == old(rows)
      ensures metric != null ==>
                if out.Done? then UpdateRule(old(metric.val), v) == Some(metric.val) else metric.val == old(metric.val)
    {
      var after := SqlUpdate(rows, key, v);
      if after.None? { return Failed; }
      rows := after.value;
      if metric == null { return Panicked; }
      var panicked := metric.UpdateValue(v);
      out := if panicked then Panicked else Done;
    }

    /** The loop body of BatchUpdate, on the rows the transaction sees. */
    static method Statement(tx: Table, m: Metrics) returns (after: Option<Table>)
      requires SchemaHolds(tx)
      ensures after == TxElement(tx, m)
      ensures after.Some? ==> SchemaHolds(after.value)
    {
      if !IsText(m.id) { return None; }
      var count := if m.id in tx then 1 else 0;
      match m.actual {
        case Int(d) =>
          after := if count > 0 then SqlUpdateCounter(tx, m.id, d) else SqlInsertCounter(tx, m.id, m.mtype, d);
        case Flt(f) =>
          after := if count > 0 then SqlUpdateGauge(tx, m.id, f) else SqlInsertGauge(tx, m.id, m.mtype, f);
        case _ =>
          after := None;
      }
    }

    /** One transaction. `begun` says that it opened and prepared its
        statements, `lost` lists the elements whose statements the connection
        drops, and `committed` says whether the commit goes through. On any
        error the table is what it was. */
    method BatchUpdate(xs: seq<Metrics>, begun: bool, lost: set<nat>, committed: bool) returns (out: Outcome)
      requires Valid()
      modifies this
      ensures Valid()
      ensures out.Done? <==>
                begun && committed && (forall i :: 0 <= i < |xs| ==> i !in lost) && TxSpec(old(rows), xs).Some?
      ensures out.Done? ==> Some(rows) == TxSpec(old(rows), xs)
      ensures !out.Done? ==> out.Failed? && rows == old(rows)
      ensures (exists m :: m in xs && !IsNumber(m.actual)) ==> out.Failed? && rows == old(rows)
    {
      NonNumbersFailBatch(rows, xs);
      if !begun { return Failed; }
      var tx := rows;
      for i := 0 to |xs|
        invariant rows == old(rows) && SchemaHolds(tx)
        invariant TxSpec(rows, xs) == TxSpec(tx, xs[i..])
        invariant forall j :: 0 <= j < i ==> j !in lost
      {
        var m := xs[i];
        assert xs[i..][0] == m && xs[i..][1..] == xs[i + 1..];
        if i in lost { return Failed; }
        var after := Statement(tx, m);
        if after.None? { return Failed; }
        tx := after.value;
      }
      if !committed { return Failed; }
      rows := tx;
      out := Done;
    }

    /** Rows in any order; a row without values is skipped. */
    method GetAll() returns (items: map<string, Metric>)
      ensures forall k :: k in items <==> k in rows && ReadListed(rows[k]).Some?
      ensures forall k :: k in items ==> fresh(items[k]) && ReadListed(rows[k]) == Some(items[k].val)
    {
      items := map[];
      var todo := rows.Keys;
      while todo != {}
        invariant todo <= rows.Keys
        invariant forall k :: k in items <==> k in rows && k !in todo && ReadListed(rows[k]).Some?
        invariant forall k :: k in items ==> fresh(items[k]) && ReadListed(rows[k]) == Some(items[k].val)
        decreases |todo|
      {
        var k :| k in todo;
        todo := todo - {k};
        var row := rows[k];
        if row.gauge.Some? {
          var g := new Metric(Gauge(row.gauge.value));
          items := items[k := g];
        }
        if row.counter.Some? {
          var c := new Metric(Counter(row.counter.value));
          items := items[k := c];
        }
      }
    }
  }

  /** POST /update/ over the table. The reply is read off the handler's own copy
      of the metric; for names the table can hold, it is what the next Get
      returns. */
  method UpdateJSON(s: DBStorage, body: JsonMetric) returns (reply: Reply)
    requires s.Valid()
    modifies s
    ensures s.Valid()
    ensures UnmarshalJSON(body).Failure? ==> reply == BadRequest
    ensures UnmarshalJSON(body).Success? && body.id == "" ==> reply == NotFound
    ensures reply.BadRequest? || reply.NotFound? ==> s.rows == old(s.rows)
    ensures UnmarshalJSON(body).Success? && body.id != "" ==>
              var r := DbRequestSpec(old(s.rows), body.id, body.mtype, UnmarshalJSON(body).value.actual);
              && s.rows == r.t
              && (reply.Ok? <==> r.out.Done?)
              && (reply.InternalError? <==> r.out.Failed?)
              && (reply.Crashed? <==> r.out.Panicked?)
              && (reply.Hung? <==> r.out.Blocked?)
    ensures reply.Ok? && |body.id| <= NAME_WIDTH ==>
              && body.id in s.rows && ReadOne(s.rows[body.id]).Some?
              && reply.v == ReadOne(s.rows[body.id]).value.GetValue()
    ensures reply.Ok? && |body.id| > NAME_WIDTH ==> body.id !in s.rows
  {
    var decoded := UnmarshalJSON(body);
    if decoded.Failure? { return BadRequest; }
    var req := decoded.value;
    if req.mtype != GAUGE && req.mtype != COUNTER { return BadRequest; }
    if req.id == "" { return NotFound; }
    var metric, out := s.Get(req.id);
    if !out.Done? { return ReplyTo(out, Nil); }
    if metric != null {
      out := s.Update(req.id, req.actual, metric);
    } else {
      var created := NewMetric(req.mtype, req.actual);
      if created.None? { return Crashed; }
      metric := new Metric(created.value);
      out := s.Insert(req.id, metric);
    }
    reply := ReplyTo(out, metric.val.GetValue());
  }
}
