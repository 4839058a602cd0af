// The metric store as a map from names to readings, the three mutations of the
// Repositories interface as functions on it, and what a batch means per name.

module AbstractStore {
  import opened Wrappers
  import opened Int64
  import opened Models

  type Store = map<string, Reading>

  /** How a call ends: normally, with an error, with a panic, or never
      (waiting for a mutex nobody will release). */
  datatype Outcome = Done | Failed | Panicked | Blocked

  datatype MemState = MemState(store: Store, locked: bool)

  datatype StepResult = StepResult(st: MemState, out: Outcome)

  const EMPTY: MemState := MemState(map[], false)

  /** JSON can carry every metric. */
  predicate AllSafe(s: Store) {
    forall k :: k in s ==> s[k].JsonSafe()
  }

  function Lookup(s: Store, k: string): Option<Reading> {
    if k in s then Some(s[k]) else None
  }

  function InsertSpec(st: MemState, k: string, r: Reading): StepResult {
    if st.locked then StepResult(st, Blocked)
    else StepResult(st.(store := st.store[k := r]), Done)
  }

  /** A nil value returns, and a value of the wrong type panics, with the mutex
      still held. */
  function UpdateSpec(st: MemState, k: string, v: Any): StepResult {
    if st.locked then StepResult(st, Blocked)
    else if k !in st.store then StepResult(st, Failed)
    else if v.Nil? then StepResult(st.(locked := true), Failed)
    else match UpdateRule(st.store[k], v)
      case None => StepResult(st.(locked := true), Panicked)
      case Some(r) => StepResult(st.(store := st.store[k := r]), Done)
  }

  /** One iteration of the loop in MemStorage.BatchUpdate. */
  function ElementSpec(st: MemState, m: Metrics): StepResult {
    if st.locked then StepResult(st, Blocked)
    else if m.id in st.store then UpdateSpec(st, m.id, m.actual)
    else if IsNumber(m.actual) then InsertSpec(st, m.id, Fresh(m.actual))
    else StepResult(st, Failed)
  }

  function BatchSpec(st: MemState, xs: seq<Metrics>): StepResult
    decreases xs
  {
    if xs == [] then StepResult(st, Done)
    else
      var r := ElementSpec(st, xs[0]);
      if r.out.Done? then BatchSpec(r.st, xs[1..]) else r
  }

  /** The second storage call of a request handler, after a Get that did or did
      not find the name. */
  function WriteSpec(st: MemState, found: bool, k: string, mtype: string, v: Any): StepResult {
    if found then UpdateSpec(st, k, v)
    else match NewMetric(mtype, v)
      case None => StepResult(st, Panicked)
      case Some(r) => InsertSpec(st, k, r)
  }

  /** A request that nobody interrupts: Get, then Update or Insert. */
  function RequestSpec(st: MemState, k: string, mtype: string, v: Any): StepResult {
    if st.locked then StepResult(st, Blocked) else WriteSpec(st, k in st.store, k, mtype, v)
  }

  /** How many leading elements of a batch are applied. */
  function Applied(st: MemState, xs: seq<Metrics>): nat
    decreases xs
  {
    if xs == [] then 0
    else
      var r := ElementSpec(st, xs[0]);
      if r.out.Done? then 1 + Applied(r.st, xs[1..]) else 0
  }

  // ---------- The mutex ----------

  /** Any call on the in-memory store. */
  datatype Call =
    | InsertCall(k: string, r: Reading)
    | UpdateCall(k: string, v: Any)
    | RequestCall(k: string, mtype: string, v: Any)
    | BatchCall(xs: seq<Metrics>)

  function CallSpec(st: MemState, c: Call): StepResult {
    match c
    case InsertCall(k, r) => InsertSpec(st, k, r)
    case UpdateCall(k, v) => UpdateSpec(st, k, v)
    case RequestCall(k, mtype, v) => RequestSpec(st, k, mtype, v)
    case BatchCall(xs) => BatchSpec(st, xs)
  }

  function RunCalls(st: MemState, cs: seq<Call>): MemState
    decreases cs
  {
    if cs == [] then st else RunCalls(CallSpec(st, cs[0]).st, cs[1..])
  }

  /** The mutex leaks on exactly one kind of update: the name is there and the
      value does not have the type of the stored metric. */
  lemma {:induction false} UpdateLeaksLockIff(st: MemState, k: string, v: Any)
    requires !st.locked
    ensures UpdateSpec(st, k, v).st.locked <==> k in st.store && !SameKind(st.store[k], v)
    ensures UpdateSpec(st, k, v).out.Done? <==> k in st.store && SameKind(st.store[k], v)
    ensures UpdateSpec(st, k, v).out.Failed? <==> k !in st.store || v.Nil?
    ensures !UpdateSpec(st, k, v).out.Blocked?
  {
  }

  /** How a request ends, in full: it hangs exactly on a leaked mutex, is an error
      exactly for a known name without a value, and panics exactly for a value that
      the stored or the declared type does not accept; only a Done one changes a
      reading, and only one that meets a stored metric and is not Done leaks. */
  lemma {:induction false} RequestOutcomes(st: MemState, k: string, mtype: string, v: Any)
    ensures var r := RequestSpec(st, k, mtype, v);
            && (r.out.Blocked? <==> st.locked)
            && (r.out.Failed? <==> !st.locked && k in st.store && v.Nil?)
            && (r.out.Panicked? <==>
                  && !st.locked
                  && if k in st.store then !v.Nil? && !SameKind(st.store[k], v) else NewMetric(mtype, v).None?)
            && (!r.out.Done? ==> r.st.store == st.store)
            && (r.st.locked <==> st.locked || (k in st.store && !r.out.Done?))
            && (r.out.Done? ==> forall j :: j != k ==> Lookup(r.st.store, j) == Lookup(st.store, j))
            && (r.out.Done? ==>
                  Lookup(r.st.store, k) == if k in st.store then UpdateRule(st.store[k], v) else NewMetric(mtype, v))
  {
  }

  /** A leaked mutex is final: no later run of calls changes the store, and
      every call that touches it hangs. */
  lemma {:induction false} LeakedLockIsFinal(st: MemState, cs: seq<Call>)
    requires st.locked
    ensures RunCalls(st, cs) == st
    ensures forall c :: c in cs && c != BatchCall([]) ==> CallSpec(st, c) == StepResult(st, Blocked)
    decreases cs
  {
    if cs != [] {
      assert CallSpec(st, cs[0]).st == st;
      LeakedLockIsFinal(st, cs[1..]);
    }
  }

  // ---------- Batches as folds ----------

  lemma {:induction false} BatchAppend(st: MemState, xs: seq<Metrics>, ys: seq<Metrics>)
    ensures var r := BatchSpec(st, xs);
            BatchSpec(st, xs + ys) == if r.out.Done? then BatchSpec(r.st, ys) else r
    decreases xs
  {
    if xs == [] {
      assert xs + ys == ys;
    } else {
      assert (xs + ys)[1..] == xs[1..] + ys;
      if ElementSpec(st, xs[0]).out.Done? {
        BatchAppend(ElementSpec(st, xs[0]).st, xs[1..], ys);
      }
    }
  }

  /** A batch that stops early has applied exactly the elements before the
      offending one; the offending one changes no reading. */
  lemma {:induction false} BatchAppliesPrefix(st: MemState, xs: seq<Metrics>)
    ensures var n := Applied(st, xs);
            && n <= |xs|
            && BatchSpec(st, xs[..n]).out.Done?
            && BatchSpec(st, xs).st.store == BatchSpec(st, xs[..n]).st.store
            && (n == |xs| <==> BatchSpec(st, xs).out.Done?)
            && (n < |xs| ==> ElementSpec(BatchSpec(st, xs[..n]).st, xs[n]) == BatchSpec(st, xs))
    decreases xs
  {
    if xs != [] && ElementSpec(st, xs[0]).out.Done? {
      var n := Applied(st, xs);
      BatchAppliesPrefix(ElementSpec(st, xs[0]).st, xs[1..]);
      assert xs[..n][1..] == xs[1..][..n - 1];
    }
  }

  /** How the element that stops a batch ends it: an error for one without a number
      under a new name or without a value under a known one, a panic for any other
      value of the wrong kind. */
  lemma {:induction false} StoppingElement(st: MemState, xs: seq<Metrics>)
    requires !st.locked && !BatchSpec(st, xs).out.Done?
    ensures var n := Applied(st, xs);
            && n < |xs|
            && var turn, m := BatchSpec(st, xs[..n]).st, xs[n];
               && !turn.locked
               && (m.id in turn.store ==> !SameKind(turn.store[m.id], m.actual))
               && (m.id !in turn.store ==> !IsNumber(m.actual))
               && BatchSpec(st, xs).out == (if m.id !in turn.store || m.actual.Nil? then Failed else Panicked)
               && BatchSpec(st, xs).st == MemState(turn.store, m.id in turn.store)
  {
    BatchAppliesPrefix(st, xs);
    BatchMeaning(st, xs[..Applied(st, xs)]);
  }

  // ---------- What a batch means, name by name ----------

  /** The values a batch carries for one name, in order. */
  function Hits(xs: seq<Metrics>, k: string): seq<Any> {
    if xs == [] then []
    else (if xs[0].id == k then [xs[0].actual] else []) + Hits(xs[1..], k)
  }

  predicate AllInt(vs: seq<Any>) {
    forall v :: v in vs ==> v.Int?
  }

  predicate AllFlt(vs: seq<Any>) {
    forall v :: v in vs ==> v.Flt?
  }

  /** The mathematical sum of a list of deltas. */
  function Sum(vs: seq<Any>): int {
    if vs == [] then 0 else (if vs[0].Int? then vs[0].i else 0) + Sum(vs[1..])
  }

  function Base(before: Option<Reading>): int {
    match before
    case Some(Counter(c)) => c
    case _ => 0
  }

  /** The values sent to one name all have one kind, the kind of the metric that
      is already there if there is one. */
  predicate KeyCompatible(before: Option<Reading>, vs: seq<Any>) {
    || (AllInt(vs) && (before.Some? ==> before.value.Counter?))
    || (AllFlt(vs) && (before.Some? ==> before.value.Gauge?))
  }

  /** The reading a name ends with: untouched without values, otherwise the
      wrapped mathematical sum of a counter or the last value of a gauge. */
  function KeyMeaning(before: Option<Reading>, vs: seq<Any>): Option<Reading> {
    if vs == [] then before
    else if AllInt(vs) then Some(Counter(Wrap(Base(before) + Sum(vs))))
    else if vs[|vs| - 1].Flt? then Some(Gauge(vs[|vs| - 1].f))
    else None
  }

  ghost predicate Compatible(s: Store, xs: seq<Metrics>) {
    forall k :: KeyCompatible(Lookup(s, k), Hits(xs, k))
  }

  ghost predicate Means(before: Store, xs: seq<Metrics>, after: Store) {
    forall k :: Lookup(after, k) == KeyMeaning(Lookup(before, k), Hits(xs, k))
  }

  lemma {:induction false} HitsAppend(xs: seq<Metrics>, ys: seq<Metrics>, k: string)
    ensures Hits(xs + ys, k) == Hits(xs, k) + Hits(ys, k)
  {
    if xs == [] {
      assert xs + ys == ys;
    } else {
      var first := if xs[0].id == k then [xs[0].actual] else [];
      assert (xs + ys)[1..] == xs[1..] + ys;
      HitsAppend(xs[1..], ys, k);
      assert Hits(xs + ys, k) == first + (Hits(xs[1..], k) + Hits(ys, k)) == (first + Hits(xs[1..], k)) + Hits(ys, k);
    }
  }

  lemma {:induction false} SumAppend(us: seq<Any>, vs: seq<Any>)
    ensures Sum(us + vs) == Sum(us) + Sum(vs)
  {
    if us == [] {
      assert us + vs == vs;
    } else {
      assert (us + vs)[1..] == us[1..] + vs;
      SumAppend(us[1..], vs);
    }
  }

  lemma {:induction false} CompatibleStep(before: Option<Reading>, vs: seq<Any>, v: Any)
    ensures AllInt(vs + [v]) <==> AllInt(vs) && v.Int?
    ensures AllFlt(vs + [v]) <==> AllFlt(vs) && v.Flt?
    ensures KeyCompatible(before, vs + [v]) ==> KeyCompatible(before, vs)
  {
    var all := vs + [v];
    assert all[|vs|] == v && forall u :: u in vs ==> u in all;
    assert forall u :: u in all ==> u in vs || u == v;
  }

  lemma {:induction false} CounterAdds(x: int, y: int64)
    ensures UpdateRule(Counter(Wrap(x)), Int(y)) == Some(Counter(Wrap(x + y)))
  {
    WrapAbsorbs(x, y);
  }

  lemma {:induction false} FirstDelta(before: Option<Reading>, v: Any)
    requires v.Int? && (before.Some? ==> before.value.Counter?)
    ensures Sum([v]) == v.i
    ensures KeyMeaning(before, [v]) == if before.Some? then UpdateRule(before.value, v) else Some(Fresh(v))
  {
    assert Sum([v]) == v.i + Sum([]);
    assert AllInt([v]);
  }

  /** A counter takes one more delta. */
  lemma {:induction false} DeltaStep(before: Option<Reading>, vs: seq<Any>, v: Any)
    requires v.Int? && AllInt(vs) && (before.Some? ==> before.value.Counter?) && AllInt(vs + [v])
    ensures var mid := KeyMeaning(before, vs);
            KeyMeaning(before, vs + [v]) == if mid.Some? then UpdateRule(mid.value, v) else Some(Fresh(v))
  {
    FirstDelta(before, v);
    if vs == [] {
      assert vs + [v] == [v];
    } else {
      SumAppend(vs, [v]);
      CounterAdds(Base(before) + Sum(vs), v.i);
    }
  }

  lemma {:induction false} IntStep(before: Option<Reading>, vs: seq<Any>, v: Any)
    requires KeyCompatible(before, vs) && v.Int?
    ensures var mid := KeyMeaning(before, vs);
            && (KeyCompatible(before, vs + [v]) <==> (mid.Some? ==> mid.value.Counter?))
            && (KeyCompatible(before, vs + [v]) ==>
                  KeyMeaning(before, vs + [v]) == if mid.Some? then UpdateRule(mid.value, v) else Some(Fresh(v)))
  {
    CompatibleStep(before, vs, v);
    if vs != [] {
      assert vs[0] in vs && vs[|vs| - 1] in vs;
    }
    if KeyCompatible(before, vs + [v]) {
      DeltaStep(before, vs, v);
    }
  }

  lemma {:induction false} FltStep(before: Option<Reading>, vs: seq<Any>, v: Any)
    requires KeyCompatible(before, vs) && v.Flt?
    ensures var mid := KeyMeaning(before, vs);
            && (KeyCompatible(before, vs + [v]) <==> (mid.Some? ==> mid.value.Gauge?))
            && (KeyCompatible(before, vs + [v]) ==>
                  KeyMeaning(before, vs + [v]) == if mid.Some? then UpdateRule(mid.value, v) else Some(Fresh(v)))
  {
    CompatibleStep(before, vs, v);
    assert (vs + [v])[|vs|] == v;
    if vs != [] {
      assert vs[0] in vs && vs[|vs| - 1] in vs;
    }
  }

  /** One value after a list of values: whether it still fits, and what it does
      to the meaning of the list. */
  lemma {:induction false} KeyMeaningStep(before: Option<Reading>, vs: seq<Any>, v: Any)
    ensures KeyCompatible(before, vs + [v]) ==> KeyCompatible(before, vs)
    ensures KeyCompatible(before, vs) ==>
              var mid := KeyMeaning(before, vs);
              && (KeyCompatible(before, vs + [v]) <==> IsNumber(v) && (mid.Some? ==> SameKind(mid.value, v)))
              && (KeyCompatible(before, vs + [v]) ==>
                    KeyMeaning(before, vs + [v]) == if mid.Some? then UpdateRule(mid.value, v) else Some(Fresh(v)))
  {
    CompatibleStep(before, vs, v);
    if KeyCompatible(before, vs) {
      if v.Int? {
        IntStep(before, vs, v);
      } else if v.Flt? {
        FltStep(before, vs, v);
      }
    }
  }

  /** A batch on an unlocked store succeeds exactly when, for every name, its
      values agree with each other and with the stored metric in kind; it then
      leaves every name with the reading KeyMeaning describes and the mutex
      free. */
  lemma {:induction false} BatchMeaning(st: MemState, xs: seq<Metrics>)
    requires !st.locked
    ensures var r := BatchSpec(st, xs);
            && (r.out.Done? <==> Compatible(st.store, xs))
            && (r.out.Done? ==> !r.st.locked && Means(st.store, xs, r.st.store))
    decreases |xs|
  {
    if xs == [] {
      assert forall k :: Hits(xs, k) == [];
    } else {
      var ys, m := xs[..|xs| - 1], xs[|xs| - 1];
      var r := BatchSpec(st, ys);
      assert xs == ys + [m];
      BatchAppend(st, ys, [m]);
      BatchMeaning(st, ys);
      forall k
        ensures Hits(xs, k) == Hits(ys, k) + (if m.id == k then [m.actual] else [])
        ensures KeyCompatible(Lookup(st.store, k), Hits(xs, k)) ==> KeyCompatible(Lookup(st.store, k), Hits(ys, k))
      {
        HitsAppend(ys, [m], k);
        KeyMeaningStep(Lookup(st.store, k), Hits(ys, k), m.actual);
      }
      KeyMeaningStep(Lookup(st.store, m.id), Hits(ys, m.id), m.actual);
      if r.out.Done? {
        LastElement(st.store, r.st, ys, m);
        assert BatchSpec(r.st, [m]).out.Done? <==> ElementSpec(r.st, m).out.Done?;
      }
    }
  }

  /** The induction step: the last element of a batch whose others are applied. */
  lemma {:induction false} LastElement(s: Store, st: MemState, ys: seq<Metrics>, m: Metrics)
    requires !st.locked && Compatible(s, ys) && Means(s, ys, st.store)
    ensures var r := ElementSpec(st, m);
            && (r.out.Done? <==> Compatible(s, ys + [m]))
            && (r.out.Done? ==> !r.st.locked && Means(s, ys + [m], r.st.store))
  {
    var r := ElementSpec(st, m);
    forall k
      ensures Hits(ys + [m], k) == Hits(ys, k) + (if m.id == k then [m.actual] else [])
    {
      HitsAppend(ys, [m], k);
    }
    var before, vs := Lookup(s, m.id), Hits(ys, m.id);
    KeyMeaningStep(before, vs, m.actual);
    assert Lookup(st.store, m.id) == KeyMeaning(before, vs) && KeyCompatible(before, vs);
    ElementMeaning(st, m);
    if r.out.Done? {
      forall k
        ensures KeyCompatible(Lookup(s, k), Hits(ys + [m], k))
        ensures Lookup(r.st.store, k) == KeyMeaning(Lookup(s, k), Hits(ys + [m], k))
      {
        assert k != m.id ==> Hits(ys + [m], k) == Hits(ys, k);
      }
    } else {
      assert !KeyCompatible(before, Hits(ys + [m], m.id));
    }
  }

  /** One element: when it succeeds and what it writes, and that it writes
      nothing else. */
  lemma {:induction false} ElementMeaning(st: MemState, m: Metrics)
    requires !st.locked
    ensures var r, mid := ElementSpec(st, m), Lookup(st.store, m.id);
            && (r.out.Done? <==> IsNumber(m.actual) && (mid.Some? ==> SameKind(mid.value, m.actual)))
            && (r.out.Done? ==>
                  && !r.st.locked
                  && Lookup(r.st.store, m.id) ==
                       if mid.Some? then UpdateRule(mid.value, m.actual) else Some(Fresh(m.actual)))
            && (forall k :: k != m.id ==> Lookup(r.st.store, k) == Lookup(st.store, k))
  {
  }

  /** The elements before the `n`th go through, and the `n`th meets a metric,
      stored before or by one of them, of another kind than its value. */
  ghost predicate MeetsOtherKind(s: Store, xs: seq<Metrics>, n: nat)
    requires n < |xs|
  {
    && Compatible(s, xs[..n])
    && var mid := KeyMeaning(Lookup(s, xs[n].id), Hits(xs[..n], xs[n].id));
       mid.Some? && !SameKind(mid.value, xs[n].actual)
  }

  /** A batch leaves the mutex locked exactly when some element meets a metric of
      another kind; the condition reads the batch and the store before it. */
  lemma {:induction false} BatchLeaksLockIff(st: MemState, xs: seq<Metrics>)
    requires !st.locked
    ensures BatchSpec(st, xs).st.locked <==> exists n: nat | n < |xs| :: MeetsOtherKind(st.store, xs, n)
  {
    BatchAppliesPrefix(st, xs);
    BatchMeaning(st, xs);
    var n := Applied(st, xs);
    if n < |xs| {
      ElementAfterPrefix(st, xs, n);
    }
    forall m: nat | m < |xs| && MeetsOtherKind(st.store, xs, m)
      ensures BatchSpec(st, xs).st.locked
    {
      ElementAfterPrefix(st, xs, m);
    }
  }

  /** An element whose predecessors go through. */
  lemma {:induction false} ElementAfterPrefix(st: MemState, xs: seq<Metrics>, n: nat)
    requires !st.locked && n < |xs|
    ensures BatchSpec(st, xs[..n]).out.Done? <==> Compatible(st.store, xs[..n])
    ensures Compatible(st.store, xs[..n]) ==>
              var r := ElementSpec(BatchSpec(st, xs[..n]).st, xs[n]);
              && (r.st.locked <==> MeetsOtherKind(st.store, xs, n))
              && (!r.out.Done? ==> BatchSpec(st, xs) == r)
  {
    BatchMeaning(st, xs[..n]);
    if Compatible(st.store, xs[..n]) {
      var turn := BatchSpec(st, xs[..n]).st;
      assert Lookup(turn.store, xs[n].id) == KeyMeaning(Lookup(st.store, xs[n].id), Hits(xs[..n], xs[n].id));
      if xs[n].id in turn.store {
        UpdateLeaksLockIff(turn, xs[n].id, xs[n].actual);
      }
      assert xs == xs[..n] + xs[n..] && xs[n..][0] == xs[n];
      BatchAppend(st, xs[..n], xs[n..]);
    }
  }

  // ---------- Batches without repeated names ----------

  ghost predicate DistinctNames(ms: seq<Metrics>) {
    forall p, q :: 0 <= p < q < |ms| ==> ms[p].id != ms[q].id
  }

  lemma {:induction false} HitsOfDistinct(ms: seq<Metrics>, k: string)
    requires DistinctNames(ms)
    ensures (forall p :: 0 <= p < |ms| ==> ms[p].id != k) ==> Hits(ms, k) == []
    ensures forall p :: 0 <= p < |ms| && ms[p].id == k ==> Hits(ms, k) == [ms[p].actual]
  {
    if ms != [] {
      HitsOfDistinct(ms[1..], k);
      forall p | 0 <= p < |ms| && ms[p].id == k
        ensures Hits(ms, k) == [ms[p].actual]
      {
        if p > 0 {
          assert ms[1..][p - 1] == ms[p] && ms[0].id != k;
        } else {
          assert forall q :: 0 <= q < |ms| - 1 ==> ms[1..][q].id != k;
        }
      }
      if forall p :: 0 <= p < |ms| ==> ms[p].id != k {
        assert ms[0].id != k && forall q :: 0 <= q < |ms| - 1 ==> ms[1..][q].id != k;
      }
    }
  }

  lemma {:induction false} DistinctIsCompatible(ms: seq<Metrics>)
    requires DistinctNames(ms) && forall p :: 0 <= p < |ms| ==> IsNumber(ms[p].actual)
    ensures Compatible(map[], ms)
  {
    forall k
      ensures KeyCompatible(None, Hits(ms, k))
    {
      HitsOfDistinct(ms, k);
      if exists p :: 0 <= p < |ms| && ms[p].id == k {
        var p :| 0 <= p < |ms| && ms[p].id == k;
        assert Hits(ms, k) == [ms[p].actual];
      }
    }
  }

  lemma {:induction false} DistinctStores(ms: seq<Metrics>, q: nat)
    requires DistinctNames(ms) && forall p :: 0 <= p < |ms| ==> IsNumber(ms[p].actual)
    requires q < |ms|
    ensures Lookup(BatchSpec(EMPTY, ms).st.store, ms[q].id) == Some(Fresh(ms[q].actual))
  {
    DistinctIsCompatible(ms);
    BatchMeaning(EMPTY, ms);
    HitsOfDistinct(ms, ms[q].id);
    KeyMeaningStep(None, [], ms[q].actual);
    assert [] + [ms[q].actual] == [ms[q].actual];
  }

  /** A batch of numbers under distinct names, on an empty store, stores each of
      them. */
  lemma {:induction false} DistinctBatchStoresAll(ms: seq<Metrics>)
    requires DistinctNames(ms) && forall p :: 0 <= p < |ms| ==> IsNumber(ms[p].actual)
    ensures var r := BatchSpec(EMPTY, ms);
            r.out.Done? && forall q :: 0 <= q < |ms| ==> Lookup(r.st.store, ms[q].id) == Some(Fresh(ms[q].actual))
  {
    DistinctIsCompatible(ms);
    BatchMeaning(EMPTY, ms);
    forall q | 0 <= q < |ms|
      ensures Lookup(BatchSpec(EMPTY, ms).st.store, ms[q].id) == Some(Fresh(ms[q].actual))
    {
      DistinctStores(ms, q);
    }
  }
}
