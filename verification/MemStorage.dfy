// internal/storage/memory.go: the in-memory store, its mutex and its shared
// metric objects; and the request handler that reads before it writes.

module Memory {
  import opened Wrappers
  import opened Models
  import opened AbstractStore

  class MemStorage {
    var values: map<string, Metric>
    var locked: bool

    /** No two names share a metric object. */
    ghost predicate Valid()
      reads this
    {
      forall j, k :: j in values && k in values && values[j] == values[k] ==> j == k
    }

    ghost function Contents(): Store
      reads this, values.Values
    {
      map k | k in values :: values[k].val
    }

    ghost function State(): MemState
      reads this, values.Values
    {
      MemState(Contents(), locked)
    }

    constructor ()
      ensures Valid() && State() == MemState(map[], false)
      ensures values == map[]
    {
      values, locked := map[], false;
    }

    /** Returns the stored object itself, not a copy. */
    method Get(key: string) returns (m: Metric?, out: Outcome)
      modifies this`locked
      ensures locked == old(locked)
      ensures out == if locked then Blocked else Done
      ensures m == if !locked && key in values then values[key] else null
    {
      m := null;
      if locked { return null, Blocked; }
      locked := true;
      if key in values {
        m := values[key];
      }
      locked := false;
      out := Done;
    }

    method Insert(key: string, m: Metric) returns (out: Outcome)
      modifies this
      ensures StepResult(State(), out) == InsertSpec(old(State()), key, m.val)
      ensures values == if out.Done? then old(values)[key := m] else old(values)
      ensures old(Valid()) && (forall k :: k in old(values) && k != key ==> old(values)[k] != m) ==> Valid()
    {
      if locked { return Blocked; }
      locked := true;
      values := values[key := m];
      locked := false;
      out := Done;
    }

    /** Only the object stored under `key` may change. */
    method Update(key: string, v: Any) returns (out: Outcome)
      modifies this`locked, if key in values then {values[key]} else {}
      ensures values == old(values)
      ensures var r := UpdateSpec(old(State()), key, v);
              && out == r.out
              && locked == r.st.locked
              && (key in values ==> values[key].val == r.st.store[key])
      ensures Valid() ==> StepResult(State(), out) == UpdateSpec(old(State()), key, v)
    {
      if locked { return Blocked; }
      locked := true;
      if key !in values {
        locked := false;
        return Failed;
      }
      var m := values[key];
      if v.Nil? { return Failed; }
      var panicked := m.UpdateValue(v);
      if panicked { return Panicked; }
      locked := false;
      out := Done;
    }

    /** The live map: its metrics are the stored objects. */
    method GetAll() returns (items: map<string, Metric>)
      ensures items == values
    {
      items := values;
    }

    method BatchUpdate(xs: seq<Metrics>) returns (out: Outcome)
      requires Valid()
      modifies this, values.Values
      ensures Valid()
      ensures StepResult(State(), out) == BatchSpec(old(State()), xs)
      ensures forall k :: k in old(values) ==> k in values && values[k] == old(values)[k]
      ensures fresh(values.Values - old(values.Values))
    {
      for i := 0 to |xs|
        invariant Valid()
        invariant BatchSpec(State(), xs[i..]) == BatchSpec(old(State()), xs)
        invariant forall k :: k in old(values) ==> k in values && values[k] == old(values)[k]
        invariant forall k :: k in values && k !in old(values) ==> fresh(values[k])
      {
        var m := xs[i];
        assert xs[i..][0] == m && xs[i..][1..] == xs[i + 1..];
        ghost var before := State();
        var metric, err := Get(m.id);
        if err.Blocked? { return err; }
        assert State() == before;
        if metric != null {
          err := Update(m.id, m.actual);
          assert StepResult(State(), err) == UpdateSpec(before, m.id, m.actual);
        } else {
          match m.actual {
            case Int(i) =>
              var c := new Metric(Counter(i));
              err := Insert(m.id, c);
            case Flt(f) =>
              var g := new Metric(Gauge(f));
              err := Insert(m.id, g);
            case _ =>
              err := Failed;
          }
        }
        assert StepResult(State(), err) == ElementSpec(before, m);
        if !err.Done? { return err; }
      }
      out := Done;
    }
  }

  /** What the client of a handler sees; `Crashed` is a handler panic and `Hung`
      a handler waiting for the mutex. */
  datatype Reply = Ok(v: Any) | BadRequest | NotFound | InternalError | Crashed | Hung

  function ReplyTo(out: Outcome, v: Any): Reply {
    match out
    case Done => Ok(v)
    case Failed => InternalError
    case Panicked => Crashed
    case Blocked => Hung
  }

  /** POST /update/ over the in-memory store. The reply is read off the metric
      object after the write. */
  method UpdateJSON(s: MemStorage, body: JsonMetric) returns (reply: Reply)
    requires s.Valid()
    modifies s, s.values.Values
    ensures s.Valid()
    ensures UnmarshalJSON(body).Failure? ==> reply == BadRequest
    ensures UnmarshalJSON(body).Success? && body.id == "" ==> reply == NotFound
    ensures reply.BadRequest? || reply.NotFound? ==> s.State() == old(s.State())
    ensures UnmarshalJSON(body).Success? && body.id != "" ==>
              var r := RequestSpec(old(s.State()), body.id, body.mtype, UnmarshalJSON(body).value.actual);
              && s.State() == r.st
              && (reply.Ok? <==> r.out.Done?)
              && (reply.InternalError? <==> r.out.Failed?)
              && (reply.Crashed? <==> r.out.Panicked?)
              && (reply.Hung? <==> r.out.Blocked?)
    ensures reply.Ok? ==> body.id in s.values && reply.v == s.Contents()[body.id].GetValue()
  {
    var decoded := UnmarshalJSON(body);
    if decoded.Failure? { return BadRequest; }
    var req := decoded.value;
    if req.mtype != GAUGE && req.mtype != COUNTER { return BadRequest; }
    if req.id == "" { return NotFound; }
    var metric, out := s.Get(req.id);
    if !out.Done? { return ReplyTo(out, Nil); }
    if metric != null {
      out := s.Update(req.id, req.actual);
    } else {
      var created := NewMetric(req.mtype, req.actual);
      if created.None? { return Crashed; }
      metric := new Metric(created.value);
      out := s.Insert(req.id, metric);
    }
    reply := ReplyTo(out, metric.val.GetValue());
  }
}
