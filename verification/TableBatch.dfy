// What a batch and a request mean to the table, row by row: exactly when they go
// through, and every column they leave.

module TableBatch {
  import opened Wrappers
  import opened Int64
  import opened Models
  import opened AbstractStore
  import opened Database

  function RowAt(t: Table, k: string): Option<Row> {
    if k in t then Some(t[k]) else None
  }

  /** The elements that PostgreSQL stores under `k`. */
  function Addressed(xs: seq<Metrics>, k: string): seq<Metrics> {
    if xs == [] then []
    else
      var m := xs[|xs| - 1];
      Addressed(xs[..|xs| - 1], k) + if Varchar(NAME_WIDTH, m.id) == Some(k) then [m] else []
  }

  /** The name is cut to be stored, so the SELECT never finds its row. */
  predicate Cut(m: Metrics) {
    |m.id| > NAME_WIDTH
  }

  /** The mathematical sum of the deltas. */
  function DeltaSum(ms: seq<Metrics>): int {
    if ms == [] then 0
    else DeltaSum(ms[..|ms| - 1]) + if ms[|ms| - 1].actual.Int? then ms[|ms| - 1].actual.i else 0
  }

  /** The `n`th element for a row is a delta that is stored twice, in place of what
      the row has: its name is cut and the row is there, from before or from an
      earlier element. */
  predicate Doubled(before: Option<Row>, m: Metrics, n: nat) {
    Cut(m) && m.actual.Int? && (before.Some? || n > 0)
  }

  /** The place after the last such delta, 0 without one. */
  function LastDoubled(before: Option<Row>, ms: seq<Metrics>): (p: nat)
    ensures p <= |ms| && (p > 0 ==> Doubled(before, ms[p - 1], p - 1))
    ensures forall n :: p <= n < |ms| ==> !Doubled(before, ms[n], n)
  {
    if ms == [] then 0
    else if Doubled(before, ms[|ms| - 1], |ms| - 1) then |ms|
    else LastDoubled(before, ms[..|ms| - 1])
  }

  /** The counter column as a mathematical integer: twice the last doubled delta and
      all deltas after it; without one, a counter that was there and all deltas; a
      new row whose first value is a counter, all deltas. NULL stays NULL. */
  function CounterAfter(before: Option<Row>, ms: seq<Metrics>): Option<int> {
    CounterFrom(before, ms, LastDoubled(before, ms))
  }

  function CounterFrom(before: Option<Row>, ms: seq<Metrics>, p: nat): Option<int>
    requires p <= |ms| && (p > 0 ==> ms[p - 1].actual.Int?)
  {
    if p > 0 then Some(2 * ms[p - 1].actual.i + DeltaSum(ms[p..]))
    else if before.Some? then
      if before.value.counter.Some? then Some(before.value.counter.value + DeltaSum(ms)) else None
    else if ms != [] && ms[0].actual.Int? then Some(DeltaSum(ms))
    else None
  }

  /** The gauge column: the last gauge. */
  function GaugeAfter(before: Option<Row>, ms: seq<Metrics>): Option<Float64> {
    if ms == [] then if before.Some? then before.value.gauge else None
    else if ms[|ms| - 1].actual.Flt? then Some(ms[|ms| - 1].actual.f)
    else GaugeAfter(before, ms[..|ms| - 1])
  }

  /** What the elements for one row make of it. The type stays what it was; that of
      a new row is the first element's, cut to the column. */
  predicate RowMeans(before: Option<Row>, ms: seq<Metrics>, after: Option<Row>) {
    if ms == [] then after == before
    else
      && after.Some?
      && (if before.Some? then after.value.mtype == before.value.mtype
          else Varchar(TYPE_WIDTH, ms[0].mtype) == Some(after.value.mtype))
      && after.value.gauge == GaugeAfter(before, ms)
      && Number(after.value.counter) == CounterAfter(before, ms)
  }

  function Number(c: Option<int64>): Option<int> {
    if c.Some? then Some(c.value) else None
  }

  /** `m` can be stored after `ms`: it is a number, its type fits if it is the first
      for its row or never finds the row, and a delta makes a counter within 64 bits. */
  predicate FitsAfter(before: Option<Row>, ms: seq<Metrics>, m: Metrics) {
    && IsNumber(m.actual)
    && (Cut(m) || (before.None? && ms == []) ==> Varchar(TYPE_WIDTH, m.mtype).Some?)
    && (m.actual.Int? && CounterAfter(before, ms + [m]).Some? ==> InRange(CounterAfter(before, ms + [m]).value))
  }

  /** Element `n` has a name of SQL text that fits, and can be stored after the
      elements before it that are stored in the same row. */
  predicate Fits(t: Table, xs: seq<Metrics>, n: nat)
    requires n < |xs|
  {
    && Varchar(NAME_WIDTH, xs[n].id).Some?
    && var k := Varchar(NAME_WIDTH, xs[n].id).value;
       FitsAfter(RowAt(t, k), Addressed(xs[..n], k), xs[n])
  }

  // ---------- One statement ----------

  /** The counter column after one delta. */
  function NextCounter(row: Option<Row>, m: Metrics): Option<int>
    requires m.actual.Int?
  {
    if row.None? then Some(m.actual.i)
    else if Cut(m) then Some(2 * m.actual.i)
    else if row.value.counter.Some? then Some(row.value.counter.value + m.actual.i)
    else None
  }

  /** What one element makes of its row. */
  predicate RowStep(row: Option<Row>, m: Metrics, after: Row) {
    && (if row.Some? then after.mtype == row.value.mtype else Varchar(TYPE_WIDTH, m.mtype) == Some(after.mtype))
    && if m.actual.Int? then
         && after.gauge == (if row.Some? then row.value.gauge else None)
         && Number(after.counter) == NextCounter(row, m)
       else
         && m.actual.Flt? && after.gauge == Some(m.actual.f)
         && after.counter == if row.Some? then row.value.counter else None
  }

  /** The statement for the row goes through. */
  predicate Takes(row: Option<Row>, m: Metrics) {
    && IsNumber(m.actual)
    && (Cut(m) || row.None? ==> Varchar(TYPE_WIDTH, m.mtype).Some?)
    && (m.actual.Int? && NextCounter(row, m).Some? ==> InRange(NextCounter(row, m).value))
  }

  lemma {:induction false} StatementRow(t: Table, m: Metrics)
    requires SchemaHolds(t)
    ensures var k := Varchar(NAME_WIDTH, m.id); TxElement(t, m).Some? <==> k.Some? && Takes(RowAt(t, k.value), m)
    ensures TxElement(t, m).Some? ==>
              var k, t' := Varchar(NAME_WIDTH, m.id).value, TxElement(t, m).value;
              && SchemaHolds(t')
              && k in t' && t' == t[k := t'[k]] && RowStep(RowAt(t, k), m, t'[k])
  {
    assert m.id in t ==> !Cut(m) && Varchar(NAME_WIDTH, m.id) == Some(m.id);
    if TxElement(t, m).Some? {
      var k, t' := Varchar(NAME_WIDTH, m.id).value, TxElement(t, m).value;
      assert t' == t[k := t'[k]];
    }
  }

  // ---------- The whole batch ----------

  lemma {:induction false} DeltaSumSnoc(ms: seq<Metrics>, m: Metrics)
    ensures DeltaSum(ms + [m]) == DeltaSum(ms) + if m.actual.Int? then m.actual.i else 0
  {
    assert (ms + [m])[..|ms|] == ms;
  }

  lemma {:induction false} AddressedSnoc(xs: seq<Metrics>, m: Metrics, k: string)
    ensures Addressed(xs + [m], k) == Addressed(xs, k) + if Varchar(NAME_WIDTH, m.id) == Some(k) then [m] else []
  {
    assert (xs + [m])[..|xs|] == xs;
  }

  lemma {:induction false} LastDoubledSnoc(before: Option<Row>, ms: seq<Metrics>, m: Metrics)
    ensures LastDoubled(before, ms + [m]) == if Doubled(before, m, |ms|) then |ms| + 1 else LastDoubled(before, ms)
  {
    assert (ms + [m])[..|ms|] == ms;
  }

  /** An element that is added to what is there. */
  lemma {:induction false} AddedFrom(before: Option<Row>, ms: seq<Metrics>, m: Metrics, p: nat)
    requires before.Some? || ms != []
    requires p <= |ms| && (p > 0 ==> ms[p - 1].actual.Int?)
    ensures CounterFrom(before, ms + [m], p) == Plus(CounterFrom(before, ms, p), m)
  {
    DeltaSumSnoc(ms, m);
    if p > 0 {
      assert (ms + [m])[p..] == ms[p..] + [m];
      DeltaSumSnoc(ms[p..], m);
    }
  }

  function Plus(c: Option<int>, m: Metrics): Option<int> {
    if c.None? then None else Some(c.value + if m.actual.Int? then m.actual.i else 0)
  }

  lemma {:induction false} AddedSnoc(before: Option<Row>, ms: seq<Metrics>, m: Metrics)
    requires (before.Some? || ms != []) && !Doubled(before, m, |ms|)
    ensures CounterAfter(before, ms + [m]) == Plus(CounterAfter(before, ms), m)
  {
    LastDoubledSnoc(before, ms, m);
    AddedFrom(before, ms, m, LastDoubled(before, ms));
  }

  lemma {:induction false} FirstSnoc(m: Metrics)
    ensures CounterAfter(None, [m]) == if m.actual.Int? then Some(m.actual.i) else None
  {
    assert [m][..0] == [] && !Doubled(None, m, 0) && LastDoubled(None, []) == 0 && DeltaSum([]) == 0;
  }

  lemma {:induction false} DoubledSnoc(before: Option<Row>, ms: seq<Metrics>, m: Metrics)
    requires Doubled(before, m, |ms|)
    ensures CounterAfter(before, ms + [m]) == Some(2 * m.actual.i)
  {
    LastDoubledSnoc(before, ms, m);
    assert (ms + [m])[|ms| + 1..] == [] && (ms + [m])[|ms|] == m && DeltaSum([]) == 0;
  }

  /** `c` is the counter column after `m`. */
  predicate Follows(row: Option<Row>, m: Metrics, c: Option<int>) {
    c == if m.actual.Int? then NextCounter(row, m) else if row.Some? then Number(row.value.counter) else None
  }

  lemma {:induction false} AddedFollows(row: Option<Row>, m: Metrics, c: Option<int>)
    requires row.Some? && !(Cut(m) && m.actual.Int?) && c == Plus(Number(row.value.counter), m)
    ensures Follows(row, m, c)
  {
  }

  /** One more element for a row whose counter is `row`'s. */
  lemma {:induction false} CounterSnoc(before: Option<Row>, ms: seq<Metrics>, row: Option<Row>, m: Metrics)
    requires row.Some? <==> before.Some? || ms != []
    requires row.Some? ==> CounterAfter(before, ms) == Number(row.value.counter)
    ensures Follows(row, m, CounterAfter(before, ms + [m]))
  {
    if row.None? {
      assert ms + [m] == [m];
      FirstSnoc(m);
    } else if Doubled(before, m, |ms|) {
      DoubledSnoc(before, ms, m);
    } else {
      AddedSnoc(before, ms, m);
      AddedFollows(row, m, CounterAfter(before, ms + [m]));
    }
  }

  lemma {:induction false} CounterOfRow(before: Option<Row>, ms: seq<Metrics>, row: Option<Row>)
    requires RowMeans(before, ms, row)
    ensures row.Some? <==> before.Some? || ms != []
    ensures row.Some? ==> CounterAfter(before, ms) == Number(row.value.counter)
  {
    if ms == [] {
      assert LastDoubled(before, ms) == 0 && DeltaSum(ms) == 0;
    }
  }

  lemma {:induction false} GaugeSnoc(before: Option<Row>, ms: seq<Metrics>, m: Metrics)
    ensures GaugeAfter(before, ms + [m]) == if m.actual.Flt? then Some(m.actual.f) else GaugeAfter(before, ms)
  {
    assert (ms + [m])[..|ms|] == ms;
  }

  /** A row after one more element. */
  lemma {:induction false} RowSnoc(before: Option<Row>, ms: seq<Metrics>, row: Option<Row>, m: Metrics, after: Row)
    requires RowMeans(before, ms, row) && RowStep(row, m, after)
    ensures RowMeans(before, ms + [m], Some(after))
  {
    CounterOfRow(before, ms, row);
    CounterSnoc(before, ms, row, m);
    GaugeSnoc(before, ms, m);
    assert ms != [] ==> (ms + [m])[0] == ms[0];
    assert ms == [] ==> GaugeAfter(before, ms) == if row.Some? then row.value.gauge else None;
  }

  lemma {:induction false} TxAppend(t: Table, xs: seq<Metrics>, ys: seq<Metrics>)
    ensures TxSpec(t, xs + ys) == if TxSpec(t, xs).Some? then TxSpec(TxSpec(t, xs).value, ys) else None
    decreases xs
  {
    if xs == [] {
      assert xs + ys == ys;
    } else {
      assert (xs + ys)[1..] == xs[1..] + ys;
      if TxElement(t, xs[0]).Some? {
        TxAppend(TxElement(t, xs[0]).value, xs[1..], ys);
      }
    }
  }

  ghost predicate TableMeans(t: Table, xs: seq<Metrics>, t': Table) {
    SchemaHolds(t') && forall k :: RowMeans(RowAt(t, k), Addressed(xs, k), RowAt(t', k))
  }

  lemma {:induction false} TakesIff(before: Option<Row>, ms: seq<Metrics>, row: Option<Row>, m: Metrics)
    requires RowMeans(before, ms, row)
    ensures Takes(row, m) <==> FitsAfter(before, ms, m)
  {
    CounterOfRow(before, ms, row);
    CounterSnoc(before, ms, row, m);
  }

  /** The last element, when the others have been stored. */
  lemma {:induction false} LastFits(t: Table, ys: seq<Metrics>, mid: Table, m: Metrics, k: string)
    requires TableMeans(t, ys, mid) && Varchar(NAME_WIDTH, m.id) == Some(k)
    ensures Takes(RowAt(mid, k), m) <==> Fits(t, ys + [m], |ys|)
  {
    assert (ys + [m])[..|ys|] == ys;
    TakesIff(RowAt(t, k), Addressed(ys, k), RowAt(mid, k), m);
  }

  lemma {:induction false} LastStatement(t: Table, ys: seq<Metrics>, mid: Table, m: Metrics)
    requires TableMeans(t, ys, mid)
    ensures TxElement(mid, m).Some? <==> Fits(t, ys + [m], |ys|)
    ensures TxElement(mid, m).Some? ==> TableMeans(t, ys + [m], TxElement(mid, m).value)
  {
    StatementRow(mid, m);
    match Varchar(NAME_WIDTH, m.id) {
      case None => assert (ys + [m])[|ys|] == m;
      case Some(k) => LastFits(t, ys, mid, m, k);
    }
    if TxElement(mid, m).Some? {
      RowsAfterLast(t, ys, mid, m);
    }
  }

  lemma {:induction false} RowsAfterLast(t: Table, ys: seq<Metrics>, mid: Table, m: Metrics)
    requires TableMeans(t, ys, mid) && TxElement(mid, m).Some?
    ensures TableMeans(t, ys + [m], TxElement(mid, m).value)
  {
    StatementRow(mid, m);
    var k, t' := Varchar(NAME_WIDTH, m.id).value, TxElement(mid, m).value;
    forall j
      ensures RowMeans(RowAt(t, j), Addressed(ys + [m], j), RowAt(t', j))
    {
      AddressedSnoc(ys, m, j);
      if j == k {
        RowSnoc(RowAt(t, k), Addressed(ys, k), RowAt(mid, k), m, t'[k]);
      } else {
        assert RowAt(t', j) == RowAt(mid, j) && Addressed(ys + [m], j) == Addressed(ys, j);
      }
    }
  }

  /** A batch can commit exactly when every element can be stored at its turn, and
      then each row has the type, the gauge and the counter its own elements make
      of it; rows that no element addresses stay. */
  lemma {:induction false} TableBatchMeaning(t: Table, xs: seq<Metrics>)
    requires SchemaHolds(t)
    ensures TxSpec(t, xs).Some? <==> forall n :: 0 <= n < |xs| ==> Fits(t, xs, n)
    ensures TxSpec(t, xs).Some? ==> TableMeans(t, xs, TxSpec(t, xs).value)
    decreases |xs|
  {
    if xs != [] {
      var ys, m := xs[..|xs| - 1], xs[|xs| - 1];
      assert xs == ys + [m];
      TxAppend(t, ys, [m]);
      TableBatchMeaning(t, ys);
      forall n | 0 <= n < |ys|
        ensures Fits(t, xs, n) <==> Fits(t, ys, n)
      {
        assert xs[..n] == ys[..n];
      }
      if TxSpec(t, ys).Some? {
        var mid := TxSpec(t, ys).value;
        LastStatement(t, ys, mid, m);
        assert TxSpec(mid, [m]) == match TxElement(mid, m) case None => None case Some(t') => TxSpec(t', []);
      }
    }
  }

  /** With names that fit there is no doubling: a counter is what it was, or zero in
      a row that starts with a delta, plus the sum of its deltas. */
  lemma {:induction false} ShortNamesAdd(before: Option<Row>, ms: seq<Metrics>)
    requires forall m :: m in ms ==> !Cut(m)
    requires if before.Some? then before.value.counter.Some? else ms != [] && ms[0].actual.Int?
    ensures CounterAfter(before, ms)
         == Some((if before.Some? then before.value.counter.value else 0) + DeltaSum(ms))
  {
    assert forall n :: 0 <= n < |ms| ==> ms[n] in ms;
  }

  // ---------- One request ----------

  /** The table refuses the request: a row of NULLs, a sum or a doubled delta beyond
      64 bits, or a new name that does not fit. */
  predicate Refuses(t: Table, k: string, mtype: string, v: Any) {
    if k in t then
      ReadOne(t[k]).None? || (v.Int? && t[k].counter.Some? && !InRange(t[k].counter.value + v.i))
    else
      && NewMetric(mtype, v).Some?
      && (Varchar(NAME_WIDTH, k).None? || (ConflictFires(t, k) && v.Int? && !InRange(v.i + v.i)))
  }

  /** The request writes its number into the row its name is stored under, also when
      the handler panics afterwards on its copy of a row of another kind. */
  ghost predicate WritesRow(t: Table, k: string, mtype: string, v: Any, t': Table) {
    var name := Varchar(NAME_WIDTH, k);
    && name.Some? && name.value in t' && t' == t[name.value := t'[name.value]]
    && RowStep(RowAt(t, name.value), Metrics(k, mtype, None, None, v), t'[name.value])
  }

  /** How a request over the table ends, in full: an error exactly for a name that
      is not SQL text or a refusal, and the table stays; a panic exactly for a value
      that the row read or the declared type does not accept, which still writes if
      it is a number and the row is there. */
  lemma {:induction false} TableRequestOutcomes(t: Table, k: string, mtype: string, v: Any)
    requires SchemaHolds(t)
    ensures var r := DbRequestSpec(t, k, mtype, v);
            && !r.out.Blocked?
            && (r.out.Failed? <==> !IsText(k) || Refuses(t, k, mtype, v))
            && (r.out.Panicked? <==>
                  && IsText(k) && !Refuses(t, k, mtype, v)
                  && if k in t then !SameKind(ReadOne(t[k]).value, v) else NewMetric(mtype, v).None?)
            && (r.out.Failed? || !IsNumber(v) || (r.out.Panicked? && k !in t) ==> r.t == t)
            && (r.out.Done? || (r.out.Panicked? && k in t && IsNumber(v)) ==> WritesRow(t, k, mtype, v, r.t))
  {
    var r := DbRequestSpec(t, k, mtype, v);
    if r.out.Done? || (r.out.Panicked? && k in t && IsNumber(v)) {
      var name := Varchar(NAME_WIDTH, k).value;
      assert k in t ==> name == k;
      assert name in r.t && r.t == t[name := r.t[name]];
    }
  }

  // ---------- The widths of the columns ----------

  /** The name column takes 30 characters and the type column 7, both in
      characters that are not spaces. */
  lemma {:induction false} ColumnWidths(name: string, d: int64)
    requires IsText(name) && name != "" && name[|name| - 1] != ' '
    ensures DbBatchSpec(map[], [Metrics(name, COUNTER, None, None, Int(d))]).out.Done? <==> |name| <= 30
    ensures DbBatchSpec(map[], [Metrics("a", "counter8", None, None, Int(d))]).out.Failed?
  {
    var m, m' := Metrics(name, COUNTER, None, None, Int(d)), Metrics("a", "counter8", None, None, Int(d));
    assert TxElement(map[], m).Some? <==> |name| <= 30;
    assert TxSpec(map[], [m]).Some? <==> TxElement(map[], m).Some?;
    assert "counter8"[7] != ' ' && TxElement(map[], m').None?;
  }
}
