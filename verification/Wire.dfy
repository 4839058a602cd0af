// The two batch paths from the agent's store to the server's: JSON over HTTP
// (internal/agent/send.go, internal/handlers/main.go) and protobuf over gRPC
// (internal/agent/send.go, internal/grpc/server/main.go).

module Wire {
  import opened Wrappers
  import opened Int64
  import opened Models
  import opened AbstractStore
  import opened Memory

  // ---------- Messages ----------

  datatype Item = Item(j: JsonMetric) | Malformed

  /** A request body by its first JSON token: null (a nil slice), empty braces, an
      array with or without its closing bracket, or anything else, which includes
      braces with members, other values and no text at all. */
  datatype Body = Null | EmptyObject | Array(items: seq<Item>, ended: bool) | Other

  datatype PbType = UNSPECIFIED | PB_GAUGE | PB_COUNTER

  /** The protobuf Metric; sub-messages may be absent. */
  datatype PbMetric = PbMetric(id: Option<string>, ptype: PbType, value: Option<Float64>, delta: Option<int64>)

  // ---------- Reports of a store, in map order ----------

  /** `order` lists every name of the store once. */
  ghost predicate Enumerates(order: seq<string>, s: Store) {
    && (forall i :: 0 <= i < |order| ==> order[i] in s)
    && (forall k :: k in s ==> k in order)
    && (forall i, j :: 0 <= i < j < |order| ==> order[i] != order[j])
  }

  function Dtos(s: Store, order: seq<string>): seq<Metrics>
    requires forall i :: 0 <= i < |order| ==> order[i] in s
  {
    if order == [] then [] else [Untyped(order[0], s[order[0]].GetValue())] + Dtos(s, order[1..])
  }

  function MarshalAll(ms: seq<Metrics>): Result<seq<Item>, JsonError> {
    if ms == [] then Success([])
    else
      match MarshalJSON(ms[0])
      case Failure(e) => Failure(e)
      case Success(j) =>
        match MarshalAll(ms[1..])
        case Failure(e) => Failure(e)
        case Success(items) => Success([Item(j)] + items)
  }

  /** json.Marshal of the slice sendReportInBatch builds. */
  function JsonReport(s: Store, order: seq<string>): Result<Body, JsonError>
    requires forall i :: 0 <= i < |order| ==> order[i] in s
  {
    match MarshalAll(Dtos(s, order))
    case Failure(e) => Failure(e)
    case Success(items) => Success(if order == [] then Null else Array(items, true))
  }

  function ToPb(k: string, r: Reading): PbMetric {
    match r
    case Counter(c) => PbMetric(Some(k), PB_COUNTER, None, Some(c))
    case Gauge(g) => PbMetric(Some(k), PB_GAUGE, Some(g), None)
  }

  function PbReport(s: Store, order: seq<string>): seq<PbMetric>
    requires forall i :: 0 <= i < |order| ==> order[i] in s
  {
    if order == [] then [] else [ToPb(order[0], s[order[0]])] + PbReport(s, order[1..])
  }

  ghost predicate IsJsonReport(body: Result<Body, JsonError>, s: Store) {
    exists order :: Enumerates(order, s) && body == JsonReport(s, order)
  }

  ghost predicate IsPbReport(req: seq<PbMetric>, s: Store) {
    exists order :: Enumerates(order, s) && req == PbReport(s, order)
  }

  lemma {:induction false} ReportsAppend(s: Store, order: seq<string>, k: string)
    requires (forall i :: 0 <= i < |order| ==> order[i] in s) && k in s
    ensures Dtos(s, order + [k]) == Dtos(s, order) + [Untyped(k, s[k].GetValue())]
    ensures PbReport(s, order + [k]) == PbReport(s, order) + [ToPb(k, s[k])]
  {
    if order != [] {
      assert (order + [k])[1..] == order[1..] + [k];
      ReportsAppend(s, order[1..], k);
    } else {
      assert (order + [k])[1..] == [] && order + [k] == [k];
    }
  }

  /** The loop invariant of both encoders: `order` lists once every name that is
      not in `todo`. */
  ghost predicate Listed(order: seq<string>, s: Store, todo: set<string>) {
    && (forall i :: 0 <= i < |order| ==> order[i] in s && order[i] !in todo)
    && (forall k :: k in s && k !in todo ==> k in order)
    && (forall i, j :: 0 <= i < j < |order| ==> order[i] != order[j])
  }

  lemma {:induction false} ListedExtends(order: seq<string>, s: Store, todo: set<string>, k: string)
    requires Listed(order, s, todo) && k in todo && k in s
    ensures Listed(order + [k], s, todo - {k})
  {
    assert (order + [k])[|order|] == k;
    forall j | j in s && j !in todo - {k}
      ensures j in order + [k]
    {
    }
  }

  /** sendReportInBatch up to the request body. */
  method SendReportInBatch(store: MemStorage) returns (body: Result<Body, JsonError>)
    ensures IsJsonReport(body, store.Contents())
  {
    var items := store.GetAll();
    ghost var s := store.Contents();
    var reqMetrics := [];
    var todo := items.Keys;
    ghost var order: seq<string> := [];
    while todo != {}
      invariant todo <= items.Keys == s.Keys && Listed(order, s, todo)
      invariant reqMetrics == Dtos(s, order)
      invariant |reqMetrics| == |order|
      decreases |todo|
    {
      var k :| k in todo;
      reqMetrics := reqMetrics + [Untyped(k, items[k].val.GetValue())];
      ReportsAppend(s, order, k);
      ListedExtends(order, s, todo, k);
      order := order + [k];
      todo := todo - {k};
    }
    var encoded := MarshalAll(reqMetrics);
    match encoded {
      case Failure(e) => body := Failure(e);
      case Success(js) => body := Success(if reqMetrics == [] then Null else Array(js, true));
    }
    assert Enumerates(order, s) && body == JsonReport(s, order);
  }

  /** sendReportInBatchGRPC up to the call. */
  method SendReportInBatchGRPC(store: MemStorage) returns (req: seq<PbMetric>)
    ensures IsPbReport(req, store.Contents())
  {
    var items := store.GetAll();
    ghost var s := store.Contents();
    req := [];
    var todo := items.Keys;
    ghost var order: seq<string> := [];
    while todo != {}
      invariant todo <= items.Keys == s.Keys && Listed(order, s, todo)
      invariant req == PbReport(s, order)
      decreases |todo|
    {
      var k :| k in todo;
      var m: PbMetric;
      match items[k].val {
        case Counter(c) => m := PbMetric(Some(k), PB_COUNTER, None, Some(c));
        case Gauge(g) => m := PbMetric(Some(k), PB_GAUGE, Some(g), None);
      }
      req := req + [m];
      ReportsAppend(s, order, k);
      ListedExtends(order, s, todo, k);
      order := order + [k];
      todo := todo - {k};
    }
    assert Enumerates(order, s);
  }

  // ---------- The server side ----------

  datatype DecodeError = BadJson | WrongMetricType | EmptyName

  function DecodeItem(item: Item): Result<Metrics, DecodeError> {
    if item.Malformed? then Failure(BadJson)
    else
      match UnmarshalJSON(item.j)
      case Failure(_) => Failure(BadJson)
      case Success(m) =>
        if m.mtype != GAUGE && m.mtype != COUNTER then Failure(WrongMetricType)
        else if m.id == "" then Failure(EmptyName)
        else Success(m)
  }

  function DecodeItems(items: seq<Item>): Result<seq<Metrics>, DecodeError> {
    if items == [] then Success([])
    else
      match DecodeItem(items[0])
      case Failure(e) => Failure(e)
      case Success(m) => Prepend([m], DecodeItems(items[1..]))
  }

  function Prepend<E>(ms: seq<Metrics>, r: Result<seq<Metrics>, E>): Result<seq<Metrics>, E> {
    match r
    case Failure(_) => r
    case Success(rest) => Success(ms + rest)
  }

  /** decodeMetrics: a token, values while there are more, a token. After null
      the second token is missing; empty braces are two tokens and no value. */
  function DecodeSpec(body: Body): Result<seq<Metrics>, DecodeError> {
    match body
    case EmptyObject => Success([])
    case Array(items, ended) =>
      var ms := DecodeItems(items);
      if ms.Success? && !ended then Failure(BadJson) else ms
    case _ => Failure(BadJson)
  }

  /** What the loop means element by element: it succeeds exactly when every
      element decodes, with the elements in order, and otherwise fails with the
      error of the first that does not. */
  lemma {:induction false} DecodesElementwise(items: seq<Item>)
    ensures var r := DecodeItems(items);
            && (r.Success? <==> forall i :: 0 <= i < |items| ==> DecodeItem(items[i]).Success?)
            && (r.Success? ==> |r.value| == |items|
                               && forall i :: 0 <= i < |items| ==> DecodeItem(items[i]) == Success(r.value[i]))
            && (r.Failure? ==>
                  exists n | 0 <= n < |items| ::
                    && DecodeItem(items[n]) == Failure(r.error)
                    && forall i :: 0 <= i < n ==> DecodeItem(items[i]).Success?)
  {
    if items != [] {
      var tail := items[1..];
      DecodesElementwise(tail);
      assert forall i :: 0 < i < |items| ==> items[i] == tail[i - 1];
      if DecodeItem(items[0]).Failure? {
        assert DecodeItem(items[0]) == Failure(DecodeItems(items).error);
      } else if DecodeItems(tail).Failure? {
        var n :| 0 <= n < |tail| && DecodeItem(tail[n]) == Failure(DecodeItems(tail).error)
                 && forall i :: 0 <= i < n ==> DecodeItem(tail[i]).Success?;
        assert DecodeItem(items[n + 1]) == Failure(DecodeItems(items).error);
        assert forall i :: 0 <= i < n + 1 ==> DecodeItem(items[i]).Success?;
      }
    }
  }

  method DecodeMetrics(body: Body) returns (r: Result<seq<Metrics>, DecodeError>)
    ensures r == DecodeSpec(body)
  {
    if body.Null? || body.Other? { return Failure(BadJson); }
    if body.EmptyObject? { return Success([]); }
    var metrics: seq<Metrics> := [];
    PrependNothing(DecodeItems(body.items));
    for i := 0 to |body.items|
      invariant DecodeItems(body.items) == Prepend(metrics, DecodeItems(body.items[i..]))
    {
      var rest := body.items[i..];
      assert rest[0] == body.items[i] && rest[1..] == body.items[i + 1..];
      if body.items[i].Malformed? { return Failure(BadJson); }
      var decoded := UnmarshalJSON(body.items[i].j);
      if decoded.Failure? { return Failure(BadJson); }
      var m := decoded.value;
      if m.mtype != GAUGE && m.mtype != COUNTER { return Failure(WrongMetricType); }
      if m.id == "" { return Failure(EmptyName); }
      PrependTwice(metrics, m, DecodeItems(body.items[i + 1..]));
      metrics := metrics + [m];
    }
    assert metrics + [] == metrics;
    if !body.ended { return Failure(BadJson); }
    r := Success(metrics);
  }

  lemma {:induction false} PrependNothing<E>(r: Result<seq<Metrics>, E>)
    ensures Prepend([], r) == r
  {
    if r.Success? {
      assert [] + r.value == r.value;
    }
  }

  lemma {:induction false} PrependTwice<E>(ms: seq<Metrics>, m: Metrics, r: Result<seq<Metrics>, E>)
    ensures Prepend(ms, Prepend([m], r)) == Prepend(ms + [m], r)
  {
    if r.Success? {
      assert ms + ([m] + r.value) == (ms + [m]) + r.value;
    }
  }

  /** An unknown type is an error; a missing sub-message is a nil dereference. */
  datatype PbError = UnknownType | NilField

  function FromPb(m: PbMetric): Result<Metrics, PbError> {
    match m.ptype
    case UNSPECIFIED => Failure(UnknownType)
    case PB_COUNTER =>
      if m.delta.None? || m.id.None? then Failure(NilField)
      else Success(Metrics(m.id.value, COUNTER, None, None, Int(m.delta.value)))
    case PB_GAUGE =>
      if m.value.None? || m.id.None? then Failure(NilField)
      else Success(Metrics(m.id.value, GAUGE, None, None, Flt(m.value.value)))
  }

  function TranslateSpec(req: seq<PbMetric>): Result<seq<Metrics>, PbError> {
    if req == [] then Success([])
    else
      match FromPb(req[0])
      case Failure(e) => Failure(e)
      case Success(m) => Prepend([m], TranslateSpec(req[1..]))
  }

  /** Likewise for protobuf messages. */
  lemma {:induction false} TranslatesElementwise(req: seq<PbMetric>)
    ensures var r := TranslateSpec(req);
            && (r.Success? <==> forall i :: 0 <= i < |req| ==> FromPb(req[i]).Success?)
            && (r.Success? ==> |r.value| == |req|
                               && forall i :: 0 <= i < |req| ==> FromPb(req[i]) == Success(r.value[i]))
            && (r.Failure? ==>
                  exists n | 0 <= n < |req| ::
                    FromPb(req[n]) == Failure(r.error) && forall i :: 0 <= i < n ==> FromPb(req[i]).Success?)
  {
    if req != [] {
      var tail := req[1..];
      TranslatesElementwise(tail);
      assert forall i :: 0 < i < |req| ==> req[i] == tail[i - 1];
      if FromPb(req[0]).Failure? {
        assert FromPb(req[0]) == Failure(TranslateSpec(req).error);
      } else if TranslateSpec(tail).Failure? {
        var n :| 0 <= n < |tail| && FromPb(tail[n]) == Failure(TranslateSpec(tail).error)
                 && forall i :: 0 <= i < n ==> FromPb(tail[i]).Success?;
        assert FromPb(req[n + 1]) == Failure(TranslateSpec(req).error);
        assert forall i :: 0 <= i < n + 1 ==> FromPb(req[i]).Success?;
      }
    }
  }

  /** The translation loop of the gRPC BatchUpdate. */
  method Translate(req: seq<PbMetric>) returns (r: Result<seq<Metrics>, PbError>)
    ensures r == TranslateSpec(req)
  {
    var metrics: seq<Metrics> := [];
    PrependNothing(TranslateSpec(req));
    for i := 0 to |req|
      invariant TranslateSpec(req) == Prepend(metrics, TranslateSpec(req[i..]))
    {
      assert req[i..][0] == req[i] && req[i..][1..] == req[i + 1..];
      var m := req[i];
      var mtype, val;
      match m.ptype {
        case PB_COUNTER =>
          if m.delta.None? { return Failure(NilField); }
          mtype, val := COUNTER, Int(m.delta.value);
        case PB_GAUGE =>
          if m.value.None? { return Failure(NilField); }
          mtype, val := GAUGE, Flt(m.value.value);
        case UNSPECIFIED =>
          return Failure(UnknownType);
      }
      if m.id.None? { return Failure(NilField); }
      var dto := Metrics(m.id.value, mtype, None, None, val);
      PrependTwice(metrics, dto, TranslateSpec(req[i + 1..]));
      metrics := metrics + [dto];
    }
    assert metrics + [] == metrics;
    r := Success(metrics);
  }

  function HttpSpec(st: MemState, body: Body): StepResult {
    match DecodeSpec(body)
    case Failure(_) => StepResult(st, Failed)
    case Success(ms) => BatchSpec(st, ms)
  }

  function GrpcSpec(st: MemState, req: seq<PbMetric>): StepResult {
    match TranslateSpec(req)
    case Failure(e) => StepResult(st, if e.NilField? then Panicked else Failed)
    case Success(ms) => BatchSpec(st, ms)
  }

  // ---------- What the server accepts ----------

  /** A record of a named gauge or counter. */
  predicate NamedRecord(item: Item) {
    item.Item? && IsRecord(item.j) && item.j.id != ""
  }

  /** Empty braces, or an array with its end, all of whose items are such records. */
  predicate Acceptable(body: Body) {
    || body.EmptyObject?
    || (body.Array? && body.ended && forall i :: 0 <= i < |body.items| ==> NamedRecord(body.items[i]))
  }

  /** `ms` carries, in order, the names of the records and the fields their types
      call for. */
  ghost predicate CarriesRecords(ms: seq<Metrics>, body: Body)
    requires Acceptable(body)
  {
    if body.EmptyObject? then ms == []
    else
      && |ms| == |body.items|
      && forall i :: 0 <= i < |ms| ==>
           NamedRecord(body.items[i]) && ms[i].id == body.items[i].j.id && ms[i].actual == Field(body.items[i].j)
  }

  lemma {:induction false} ItemDecodesIff(item: Item)
    ensures DecodeItem(item).Success? <==> NamedRecord(item)
    ensures NamedRecord(item) ==>
              DecodeItem(item).value.id == item.j.id && DecodeItem(item).value.actual == Field(item.j)
  {
    if item.Item? {
      UnmarshalMeaning(item.j);
    }
  }

  lemma {:induction false} DecodesIffAcceptable(body: Body)
    ensures DecodeSpec(body).Success? <==> Acceptable(body)
    ensures Acceptable(body) ==> CarriesRecords(DecodeSpec(body).value, body)
  {
    if body.Array? {
      DecodesElementwise(body.items);
      forall i | 0 <= i < |body.items|
        ensures DecodeItem(body.items[i]).Success? <==> NamedRecord(body.items[i])
        ensures NamedRecord(body.items[i]) ==>
                  && DecodeItem(body.items[i]).value.id == body.items[i].j.id
                  && DecodeItem(body.items[i]).value.actual == Field(body.items[i].j)
      {
        ItemDecodesIff(body.items[i]);
      }
    }
  }

  /** A message with a name, a type and the value its type calls for. */
  predicate Whole(m: PbMetric) {
    m.id.Some? && ((m.ptype.PB_GAUGE? && m.value.Some?) || (m.ptype.PB_COUNTER? && m.delta.Some?))
  }

  /** `ms` carries, in order, the names and the values of the messages. */
  ghost predicate CarriesMessages(ms: seq<Metrics>, req: seq<PbMetric>)
    requires forall i :: 0 <= i < |req| ==> Whole(req[i])
  {
    && |ms| == |req|
    && forall i :: 0 <= i < |req| ==>
         && Whole(req[i]) && ms[i].id == req[i].id.value
         && ms[i].actual == if req[i].ptype.PB_GAUGE? then Flt(req[i].value.value) else Int(req[i].delta.value)
  }

  /** The first message that is not whole decides: an error if it has no type, a nil
      dereference otherwise. */
  ghost predicate Refused(req: seq<PbMetric>, out: Outcome) {
    exists n | 0 <= n < |req| ::
      && !Whole(req[n]) && (forall i :: 0 <= i < n ==> Whole(req[i]))
      && out == if req[n].ptype.UNSPECIFIED? then Failed else Panicked
  }

  lemma {:induction false} TranslatesIffWhole(st: MemState, req: seq<PbMetric>)
    ensures TranslateSpec(req).Success? <==> forall i :: 0 <= i < |req| ==> Whole(req[i])
    ensures TranslateSpec(req).Success? ==> CarriesMessages(TranslateSpec(req).value, req)
    ensures TranslateSpec(req).Failure? ==> GrpcSpec(st, req).st == st && Refused(req, GrpcSpec(st, req).out)
  {
    TranslatesElementwise(req);
    if TranslateSpec(req).Failure? {
      var n :| 0 <= n < |req| && FromPb(req[n]) == Failure(TranslateSpec(req).error)
               && forall i :: 0 <= i < n ==> FromPb(req[i]).Success?;
      assert !Whole(req[n]) && forall i :: 0 <= i < n ==> Whole(req[i]);
    }
  }

  /** A record without the field of its type is accepted and then stops the batch
      with an error: what stood before it is stored, and if its name is known by
      then the mutex stays locked. */
  lemma {:induction false} MissingFieldStopsBatch(st: MemState, items: seq<Item>, ms: seq<Metrics>, n: nat)
    requires !st.locked && Acceptable(Array(items, true)) && CarriesRecords(ms, Array(items, true))
    requires n < |items| && items[n].Item? && !HasField(items[n].j) && BatchSpec(st, ms[..n]).out.Done?
    ensures HttpSpec(st, Array(items, true)).out.Failed?
    ensures var turn := BatchSpec(st, ms[..n]).st.store;
            HttpSpec(st, Array(items, true)).st == MemState(turn, items[n].j.id in turn)
  {
    DecodesIffAcceptable(Array(items, true));
    BatchReadsNamesAndValues(st, DecodeSpec(Array(items, true)).value, ms);
    BatchMeaning(st, ms[..n]);
    assert ms == ms[..n] + ms[n..] && ms[n..][0] == ms[n] && ms[n].actual.Nil?;
    BatchAppend(st, ms[..n], ms[n..]);
  }

  /** A batch looks at names and values only. */
  lemma {:induction false} BatchReadsNamesAndValues(st: MemState, ms: seq<Metrics>, ns: seq<Metrics>)
    requires |ms| == |ns| && forall i :: 0 <= i < |ms| ==> ms[i].id == ns[i].id && ms[i].actual == ns[i].actual
    ensures BatchSpec(st, ms) == BatchSpec(st, ns)
    decreases ms
  {
    if ms != [] {
      assert ElementSpec(st, ms[0]) == ElementSpec(st, ns[0]);
      BatchReadsNamesAndValues(ElementSpec(st, ms[0]).st, ms[1..], ns[1..]);
    }
  }

  /** A report of `s` over one of the two paths to the server state `st`. */
  function Deliver(s: Store, order: seq<string>, viaJson: bool, st: MemState): StepResult
    requires forall i :: 0 <= i < |order| ==> order[i] in s
  {
    if !viaJson then GrpcSpec(st, PbReport(s, order))
    else
      match JsonReport(s, order)
      case Failure(_) => StepResult(st, Failed)
      case Success(body) => HttpSpec(st, body)
  }

  /** POST /updates/: a body that is not acceptable is an error and stores nothing;
      any other is one batch of its records. */
  method Updates(s: MemStorage, body: Body) returns (out: Outcome)
    requires s.Valid()
    modifies s, s.values.Values
    ensures s.Valid() && StepResult(s.State(), out) == HttpSpec(old(s.State()), body)
    ensures !Acceptable(body) ==> out == Failed && s.State() == old(s.State())
    ensures Acceptable(body) ==>
              exists ms :: CarriesRecords(ms, body) && StepResult(s.State(), out) == BatchSpec(old(s.State()), ms)
  {
    DecodesIffAcceptable(body);
    var decoded := DecodeMetrics(body);
    match decoded {
      case Failure(_) => out := Failed;
      case Success(ms) => out := s.BatchUpdate(ms);
    }
  }

  /** The gRPC BatchUpdate: one message that is not whole refuses all of them. */
  method BatchUpdate(s: MemStorage, req: seq<PbMetric>) returns (out: Outcome)
    requires s.Valid()
    modifies s, s.values.Values
    ensures s.Valid() && StepResult(s.State(), out) == GrpcSpec(old(s.State()), req)
    ensures (exists i :: 0 <= i < |req| && !Whole(req[i])) ==> Refused(req, out) && s.State() == old(s.State())
    ensures (forall i :: 0 <= i < |req| ==> Whole(req[i])) ==>
              exists ms :: CarriesMessages(ms, req) && StepResult(s.State(), out) == BatchSpec(old(s.State()), ms)
  {
    TranslatesIffWhole(s.State(), req);
    var translated := Translate(req);
    match translated {
      case Failure(e) => out := if e.NilField? then Panicked else Failed;
      case Success(ms) => out := s.BatchUpdate(ms);
    }
  }

  // ---------- Both paths carry the same store ----------

  /** `ms` carries the metrics of `s` in the given order, with their types. */
  ghost predicate Carries(ms: seq<Metrics>, s: Store, order: seq<string>) {
    && |ms| == |order|
    && forall i :: 0 <= i < |order| ==>
         && order[i] in s && ms[i].id == order[i]
         && ms[i].mtype == s[order[i]].Kind() && ms[i].actual == s[order[i]].GetValue()
  }

  /** JSON: every metric whose name is not empty and whose value is finite gets
      through; one that is not stops the whole report. */
  lemma {:induction false} JsonCarries(s: Store, order: seq<string>)
    requires forall i :: 0 <= i < |order| ==> order[i] in s
    ensures var items := MarshalAll(Dtos(s, order));
            && (items.Success? <==> forall i :: 0 <= i < |order| ==> s[order[i]].JsonSafe())
            && (items.Success? ==>
                  var ms := DecodeItems(items.value);
                  && (ms.Success? <==> forall i :: 0 <= i < |order| ==> order[i] != "")
                  && (ms.Success? ==> Carries(ms.value, s, order)))
  {
    if order != [] {
      var k := order[0];
      JsonRoundTrip(Untyped(k, s[k].GetValue()));
      assert Fresh(s[k].GetValue()) == s[k];
      JsonCarries(s, order[1..]);
      assert Dtos(s, order)[1..] == Dtos(s, order[1..]);
      assert forall i :: 0 < i < |order| ==> order[i] == order[1..][i - 1];
      var items := MarshalAll(Dtos(s, order));
      if items.Success? {
        assert items.value[1..] == MarshalAll(Dtos(s, order[1..])).value;
      }
    }
  }

  lemma {:induction false} PbCarries(s: Store, order: seq<string>)
    requires forall i :: 0 <= i < |order| ==> order[i] in s
    ensures TranslateSpec(PbReport(s, order)).Success?
    ensures Carries(TranslateSpec(PbReport(s, order)).value, s, order)
  {
    if order != [] {
      PbCarries(s, order[1..]);
      assert PbReport(s, order)[1..] == PbReport(s, order[1..]);
    }
  }

  lemma {:induction false} HitsOfCarried(ms: seq<Metrics>, s: Store, order: seq<string>, k: string)
    requires Carries(ms, s, order)
    requires forall i, j :: 0 <= i < j < |order| ==> order[i] != order[j]
    ensures Hits(ms, k) == if k in order then [s[k].GetValue()] else []
  {
    if order != [] {
      HitsOfCarried(ms[1..], s, order[1..], k);
      assert order == [order[0]] + order[1..];
    }
  }

  /** The reading of one name after a report. */
  function MergedReading(before: Option<Reading>, reported: Option<Reading>): Option<Reading> {
    if reported.None? then before
    else if before.None? then reported
    else UpdateRule(before.value, reported.value.GetValue())
  }

  /** What a report does to a server: each reported counter is added, each
      reported gauge stored, each new name created, the rest left alone. */
  ghost predicate Merged(before: Store, report: Store, after: Store) {
    forall k :: Lookup(after, k) == MergedReading(Lookup(before, k), Lookup(report, k))
  }

  lemma {:induction false} MergedIsUnique(before: Store, report: Store, after: Store, after': Store)
    requires Merged(before, report, after) && Merged(before, report, after')
    ensures after == after'
  {
    forall k
      ensures k in after <==> k in after'
      ensures k in after ==> after[k] == after'[k]
    {
      assert Lookup(after, k) == Lookup(after', k);
    }
  }

  ghost predicate SameKinds(s: Store, s': Store) {
    forall k :: k in s && k in s' ==> (s[k].Counter? <==> s'[k].Counter?)
  }

  /** KeyMeaning and KeyCompatible of a single value. */
  lemma {:induction false} OneValue(before: Option<Reading>, r: Reading)
    ensures KeyCompatible(before, [r.GetValue()]) <==> (before.Some? ==> (before.value.Counter? <==> r.Counter?))
    ensures KeyCompatible(before, [r.GetValue()]) ==>
              KeyMeaning(before, [r.GetValue()])
              == if before.None? then Some(r) else UpdateRule(before.value, r.GetValue())
  {
    KeyMeaningStep(before, [], r.GetValue());
    assert [] + [r.GetValue()] == [r.GetValue()];
    assert Fresh(r.GetValue()) == r;
  }

  lemma {:induction false} CarriedKey(ms: seq<Metrics>, s: Store, order: seq<string>, before: Store, k: string)
    requires Carries(ms, s, order) && Enumerates(order, s)
    ensures KeyCompatible(Lookup(before, k), Hits(ms, k)) <==>
              (k in before && k in s ==> (before[k].Counter? <==> s[k].Counter?))
    ensures KeyCompatible(Lookup(before, k), Hits(ms, k)) ==>
              KeyMeaning(Lookup(before, k), Hits(ms, k)) == MergedReading(Lookup(before, k), Lookup(s, k))
  {
    HitsOfCarried(ms, s, order, k);
    if k in s {
      OneValue(Lookup(before, k), s[k]);
    }
  }

  lemma {:induction false} CarriedKinds(ms: seq<Metrics>, s: Store, order: seq<string>, before: Store)
    requires Carries(ms, s, order) && Enumerates(order, s)
    ensures Compatible(before, ms) <==> SameKinds(before, s)
  {
    forall k
      ensures KeyCompatible(Lookup(before, k), Hits(ms, k)) <==>
                (k in before && k in s ==> (before[k].Counter? <==> s[k].Counter?))
    {
      CarriedKey(ms, s, order, before, k);
    }
  }

  lemma {:induction false} CarriedValues(ms: seq<Metrics>, s: Store, order: seq<string>, before: Store, after: Store)
    requires Carries(ms, s, order) && Enumerates(order, s)
    requires Compatible(before, ms) && Means(before, ms, after)
    ensures Merged(before, s, after)
  {
    forall k
      ensures Lookup(after, k) == MergedReading(Lookup(before, k), Lookup(s, k))
    {
      CarriedKey(ms, s, order, before, k);
    }
  }

  lemma {:induction false} CarriedMerges(ms: seq<Metrics>, s: Store, order: seq<string>, st: MemState)
    requires Carries(ms, s, order) && Enumerates(order, s) && !st.locked
    ensures BatchSpec(st, ms).out.Done? <==> SameKinds(st.store, s)
    ensures BatchSpec(st, ms).out.Done? ==>
              !BatchSpec(st, ms).st.locked && Merged(st.store, s, BatchSpec(st, ms).st.store)
  {
    BatchMeaning(st, ms);
    CarriedKinds(ms, s, order, st.store);
    if BatchSpec(st, ms).out.Done? {
      CarriedValues(ms, s, order, st.store, BatchSpec(st, ms).st.store);
    }
  }

  lemma {:induction false} OrderCovers(s: Store, order: seq<string>)
    requires Enumerates(order, s)
    ensures order == [] <==> s == map[]
    ensures (forall i :: 0 <= i < |order| ==> s[order[i]].JsonSafe()) <==> AllSafe(s)
    ensures (forall i :: 0 <= i < |order| ==> order[i] != "") <==> "" !in s
  {
    if order != [] {
      assert order[0] in s;
    } else {
      assert forall k :: k in s ==> k in order;
    }
  }

  /** The JSON path delivers a report exactly when the store is not empty, every
      gauge is finite and no name is empty; the protobuf path delivers every
      store. */
  lemma {:induction false} DeliveredIff(s: Store, order: seq<string>)
    requires Enumerates(order, s)
    ensures JsonReport(s, order).Success? && DecodeSpec(JsonReport(s, order).value).Success?
            <==> s != map[] && AllSafe(s) && "" !in s
    ensures TranslateSpec(PbReport(s, order)).Success?
  {
    OrderCovers(s, order);
    PbCarries(s, order);
    JsonCarries(s, order);
    var items := MarshalAll(Dtos(s, order));
    if items.Success? && order != [] {
      assert DecodeSpec(JsonReport(s, order).value) == DecodeItems(items.value);
    }
  }

  lemma {:induction false} JsonDelivers(s: Store, order: seq<string>)
    requires Enumerates(order, s) && s != map[] && AllSafe(s) && "" !in s
    ensures JsonReport(s, order).Success? && DecodeSpec(JsonReport(s, order).value).Success?
    ensures Carries(DecodeSpec(JsonReport(s, order).value).value, s, order)
  {
    OrderCovers(s, order);
    JsonCarries(s, order);
    assert DecodeSpec(JsonReport(s, order).value) == DecodeItems(MarshalAll(Dtos(s, order)).value);
  }

  /** The two wire paths commute: whatever orders the two encoders walk the map
      in, a deliverable store changes any server in the same way on both paths.
      Both succeed exactly when no metric of the server has the other kind. */
  lemma {:induction false} WirePathsAgree(s: Store, order: seq<string>, order': seq<string>, st: MemState)
    requires Enumerates(order, s) && Enumerates(order', s) && !st.locked
    requires s != map[] && AllSafe(s) && "" !in s
    ensures var http, grpc := Deliver(s, order, true, st), Deliver(s, order', false, st);
            && (http.out.Done? <==> SameKinds(st.store, s))
            && (grpc.out.Done? <==> SameKinds(st.store, s))
            && (http.out.Done? ==> http == grpc && Merged(st.store, s, http.st.store))
  {
    JsonDelivers(s, order);
    PbCarries(s, order');
    var ms, ms' := DecodeSpec(JsonReport(s, order).value).value, TranslateSpec(PbReport(s, order')).value;
    CarriedMerges(ms, s, order, st);
    CarriedMerges(ms', s, order', st);
    if SameKinds(st.store, s) {
      MergedIsUnique(st.store, s, BatchSpec(st, ms).st.store, BatchSpec(st, ms').st.store);
    }
  }

  /** A report to an empty server rebuilds the agent's store. */
  lemma {:induction false} ReportRebuildsStore(s: Store, order: seq<string>)
    requires Enumerates(order, s)
    ensures Deliver(s, order, false, EMPTY) == StepResult(MemState(s, false), Done)
  {
    PbCarries(s, order);
    var ms, empty := TranslateSpec(PbReport(s, order)).value, EMPTY;
    CarriedMerges(ms, s, order, empty);
    assert Merged(empty.store, s, s);
    MergedIsUnique(empty.store, s, s, BatchSpec(empty, ms).st.store);
  }
}
