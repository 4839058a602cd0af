// internal/storage/models.go: metric values, the DTO and its JSON form.

module Models {
  import opened Wrappers
  import opened Int64

  /** float64. Rounding plays no role in the store, so the finite values are
      reals; the three non-finite values are kept because JSON rejects them. */
  datatype Float64 = Finite(r: real) | PosInf | NegInf | NaN

  /** The dynamic types that reach an `interface{}` value; `Other` is any type
      that is neither int64 nor float64. */
  datatype Any = Nil | Int(i: int64) | Flt(f: Float64) | Other

  /** What a metric holds. The constructor is its kind and never changes. */
  datatype Reading = Counter(c: int64) | Gauge(g: Float64) {
    function GetValue(): Any {
      match this
      case Counter(c) => Int(c)
      case Gauge(g) => Flt(g)
    }

    function Kind(): string {
      if Counter? then COUNTER else GAUGE
    }

    predicate JsonSafe() {
      Gauge? ==> g.Finite?
    }
  }

  const GAUGE: string := "gauge"
  const COUNTER: string := "counter"

  predicate IsNumber(v: Any) {
    v.Int? || v.Flt?
  }

  /** The metric a number creates when its name is new. */
  function Fresh(v: Any): Reading
    requires IsNumber(v)
  {
    if v.Int? then Counter(v.i) else Gauge(v.f)
  }

  /** NewMetricGauge or NewMetricCounter, chosen by the declared type; None is
      the panic of the failed type assertion. */
  function NewMetric(mtype: string, v: Any): Option<Reading> {
    if (mtype == GAUGE && v.Flt?) || (mtype == COUNTER && v.Int?) then Some(Fresh(v)) else None
  }

  /** The constructors build a metric of the declared type around exactly the value
      given, and panic on any value of another type. */
  lemma {:induction false} NewMetricIff(mtype: string, v: Any, r: Reading)
    ensures NewMetric(mtype, v) == Some(r) <==> r.Kind() == mtype && r.GetValue() == v
  {
  }

  /** UpdateValue: counters accumulate with wrap-around, gauges overwrite;
      None is the panic of the failed type assertion. */
  function UpdateRule(r: Reading, v: Any): Option<Reading> {
    match (r, v)
    case (Counter(c), Int(i)) => Some(Counter(Wrap(c + i)))
    case (Gauge(_), Flt(f)) => Some(Gauge(f))
    case _ => None
  }

  /** `v` has the dynamic type that a metric like `r` accepts. */
  predicate SameKind(r: Reading, v: Any) {
    (r.Counter? && v.Int?) || (r.Gauge? && v.Flt?)
  }

  /** The heap object behind the Metric interface; stored metrics are shared by
      pointer with the callers of Get. */
  class Metric {
    var val: Reading

    constructor (r: Reading)
      ensures val == r
    {
      val := r;
    }

    method UpdateValue(v: Any) returns (panicked: bool)
      modifies this
      ensures panicked <==> !SameKind(old(val), v)
      ensures panicked ==> val == old(val)
      ensures !panicked ==> UpdateRule(old(val), v) == Some(val)
    {
      match val
      case Counter(c) =>
        if !v.Int? { return true; }
        val := Counter(Wrap(c + v.i));
        panicked := false;
      case Gauge(g) =>
        if !v.Flt? { return true; }
        val := Gauge(v.f);
        panicked := false;
    }
  }

  /** The DTO. `value` and `delta` are the pointer fields JSON decodes into. */
  datatype Metrics = Metrics(id: string, mtype: string, value: Option<Float64>, delta: Option<int64>, actual: Any)

  /** One JSON object of the wire and backup formats; JSON numbers are finite. */
  datatype JsonMetric = JsonMetric(id: string, mtype: string, value: Option<real>, delta: Option<int>)

  datatype JsonError = NilValue | WrongType | Unsupported | OutOfRange

  function MarshalJSON(m: Metrics): Result<JsonMetric, JsonError> {
    match m.actual
    case Nil => Failure(NilValue)
    case Flt(Finite(r)) => Success(JsonMetric(m.id, GAUGE, Some(r), None))
    case Flt(_) => Failure(Unsupported)
    case Int(i) => Success(JsonMetric(m.id, COUNTER, None, Some(i)))
    case Other => Failure(WrongType)
  }

  /** Decoding into a zero DTO. A record without the field its type calls for is
      accepted and leaves ActualValue nil. */
  function UnmarshalJSON(j: JsonMetric): Result<Metrics, JsonError> {
    if j.delta.Some? && !InRange(j.delta.value) then Failure(OutOfRange)
    else
      var value := if j.value.Some? then Some(Finite(j.value.value)) else None;
      var delta: Option<int64> := if j.delta.Some? then Some(j.delta.value) else None;
      if j.mtype == GAUGE then
        Success(Metrics(j.id, j.mtype, value, delta, if value.Some? then Flt(value.value) else Nil))
      else if j.mtype == COUNTER then
        Success(Metrics(j.id, j.mtype, value, delta, if delta.Some? then Int(delta.value) else Nil))
      else Failure(WrongType)
  }

  /** The record has a type the server knows and no delta beyond 64 bits. */
  predicate IsRecord(j: JsonMetric) {
    (j.mtype == GAUGE || j.mtype == COUNTER) && (j.delta.Some? ==> InRange(j.delta.value))
  }

  /** The record has the field its type calls for. */
  predicate HasField(j: JsonMetric) {
    if j.mtype == GAUGE then j.value.Some? else j.delta.Some?
  }

  /** The field its type calls for, whatever other fields it has. */
  function Field(j: JsonMetric): Any
    requires IsRecord(j)
  {
    if !HasField(j) then Nil else if j.mtype == GAUGE then Flt(Finite(j.value.value)) else Int(j.delta.value)
  }

  /** Decoding refuses unknown types and deltas beyond 64 bits and nothing else; it
      keeps name and type, and takes the value of the field that the type calls
      for: a record without that field decodes to no number. */
  lemma {:induction false} UnmarshalMeaning(j: JsonMetric)
    ensures UnmarshalJSON(j).Success? <==> IsRecord(j)
    ensures IsRecord(j) ==>
              var m := UnmarshalJSON(j).value;
              && m.id == j.id && m.mtype == j.mtype && m.actual == Field(j)
              && (IsNumber(m.actual) <==> HasField(j))
              && (HasField(j) ==> NewMetric(j.mtype, m.actual).Some?)
  {
  }

  /** A DTO as Backup and sendReportInBatch build it: no MType. */
  function Untyped(id: string, v: Any): Metrics {
    Metrics(id, "", None, None, v)
  }

  /** Encoding succeeds exactly on int64 and finite float64 values, and decoding
      gives back the name, the value and the kind of the value, whatever MType
      the DTO carried. */
  lemma {:induction false} JsonRoundTrip(m: Metrics)
    ensures MarshalJSON(m).Success? <==> IsNumber(m.actual) && Fresh(m.actual).JsonSafe()
    ensures MarshalJSON(m).Success? ==>
              var d := UnmarshalJSON(MarshalJSON(m).value);
              && d.Success?
              && d.value.id == m.id
              && d.value.actual == m.actual
              && d.value.mtype == Fresh(m.actual).Kind()
  {
  }
}
