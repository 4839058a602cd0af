// internal/agent/collect.go: two collectors, two forwarders, the goroutine that
// closes the update channel and the consumer, as one small-step machine. A step
// is one channel operation, one WaitGroup operation or one store update; a run
// is any interleaving of them.

module Pipeline {
  import opened Wrappers
  import opened Models
  import opened AbstractStore

  const CAPACITY: nat := 20

  // ---------- Messages ----------

  /** storage.GetGaugeMetrics; all are numeric fields of runtime.MemStats. */
  const GAUGE_NAMES: seq<string> := [
    "Alloc", "BuckHashSys", "Frees", "GCCPUFraction", "GCSys", "HeapAlloc", "HeapIdle", "HeapInuse", "HeapObjects",
    "HeapReleased", "HeapSys", "LastGC", "Lookups", "MCacheInuse", "MCacheSys", "MSpanInuse", "MSpanSys", "Mallocs",
    "NextGC", "NumForcedGC", "NumGC", "OtherSys", "PauseTotalNs", "StackInuse", "StackSys", "Sys", "TotalAlloc"]
  const POLL_COUNT: string := "PollCount"
  const RANDOM_VALUE: string := "RandomValue"

  function GaugeMessage(name: string, f: Float64): Metrics {
    Metrics(name, GAUGE, None, None, Flt(f))
  }

  const POLL_MESSAGE: Metrics := Metrics(POLL_COUNT, COUNTER, None, None, Int(1))

  /** The messages of one tick of source `i`, given what its sensors read. */
  function TickMessages(i: nat, readings: seq<Float64>): seq<Metrics>
    requires i < 2 && |readings| == (if i == 0 then 28 else 3)
  {
    if i == 0 then
      seq(27, n requires 0 <= n < 27 => GaugeMessage(GAUGE_NAMES[n], readings[n]))
      + [POLL_MESSAGE, GaugeMessage(RANDOM_VALUE, readings[27])]
    else
      [GaugeMessage("TotalMemory", readings[0]), GaugeMessage("FreeMemory", readings[1]),
       GaugeMessage("CPUutilization1", readings[2])]
  }

  // ---------- States ----------

  datatype Chan = Chan(buf: seq<Metrics>, closed: bool)

  datatype Forwarder = Idle | Holding(m: Metrics) | Returned

  /** A collector with the channel it owns and the forwarder that reads it.
      `pending` is what the current tick has still to send; `stream` is a
      history variable, all messages of all ticks so far. */
  datatype Source = Source(pending: seq<Metrics>, exited: bool, ch: Chan, fwd: Forwarder, stream: seq<Metrics>)

  datatype Consumer = Waiting | Applying(m: Metrics) | Stopped

  /** `closer`: the goroutine behind wg.Wait has closed `upd` and returned;
      `applied` is a history variable; `crashed` is a panic in any goroutine. */
  datatype State = State(done: bool, src: seq<Source>, wg: int, closer: bool, upd: Chan, cons: Consumer,
                         mem: MemState, applied: seq<Metrics>, crashed: bool)

  const NEW_SOURCE: Source := Source([], false, Chan([], false), Idle, [])
  const INIT: State := State(false, [NEW_SOURCE, NEW_SOURCE], 2, false, Chan([], false), Waiting, EMPTY, [], false)

  // ---------- Steps ----------

  datatype Label =
    | Cancel
    | Tick(i: nat, readings: seq<Float64>)
    | Leave(i: nat)
    | Emit(i: nat)
    | Take(i: nat)
    | Finish(i: nat)
    | Forward(i: nat)
    | CloseUpdate
    | Receive
    | Apply
    | Stop

  /** UpdateMetrics on one message: Get, then Update or Insert. A message of
      neither type is dropped when its name is new. */
  function ConsumeSpec(st: MemState, m: Metrics): StepResult {
    if st.locked then StepResult(st, Blocked)
    else if m.id in st.store then UpdateSpec(st, m.id, m.actual)
    else if m.mtype == COUNTER || m.mtype == GAUGE then WriteSpec(st, false, m.id, m.mtype, m.actual)
    else StepResult(st, Done)
  }

  /** What a step inside one source does to it. */
  datatype Moved = Disabled | Panic | To(x: Source)

  predicate IsLocal(l: Label) {
    l.Tick? || l.Leave? || l.Emit? || l.Take? || l.Finish?
  }

  /** The collector's select and sends, and the forwarder's receive loop. */
  function LocalStep(x: Source, done: bool, l: Label): Moved
    requires IsLocal(l)
  {
    match l
    case Tick(i, readings) =>
      if x.exited || x.pending != [] || i >= 2 || |readings| != (if i == 0 then 28 else 3) then Disabled
      else
        var ms := TickMessages(i, readings);
        To(x.(pending := ms, stream := x.stream + ms))
    case Leave(_) =>
      if x.exited || x.pending != [] || !done then Disabled
      else if x.ch.closed then Panic
      else To(x.(exited := true, ch := x.ch.(closed := true)))
    case Emit(_) =>
      if x.pending == [] then Disabled
      else if x.ch.closed then Panic
      else if |x.ch.buf| >= CAPACITY then Disabled
      else To(x.(pending := x.pending[1..], ch := x.ch.(buf := x.ch.buf + [x.pending[0]])))
    case Take(_) =>
      if !x.fwd.Idle? || x.ch.buf == [] then Disabled
      else To(x.(fwd := Holding(x.ch.buf[0]), ch := x.ch.(buf := x.ch.buf[1..])))
    case Finish(_) =>
      if !x.fwd.Idle? || x.ch.buf != [] || !x.ch.closed then Disabled
      else To(x.(fwd := Returned))
  }

  function Crash(s: State): Option<State> {
    Some(s.(crashed := true))
  }

  /** The successor under a label; None when the label is not enabled. */
  function Step(s: State, l: Label): Option<State> {
    if s.crashed then None
    else if IsLocal(l) then
      if l.i >= |s.src| then None
      else match LocalStep(s.src[l.i], s.done, l)
        case Disabled => None
        case Panic => Crash(s)
        case To(x) =>
          if l.Finish? then
            // wg.Done below zero panics
            if s.wg <= 0 then Crash(s) else Some(s.(src := s.src[l.i := x], wg := s.wg - 1))
          else Some(s.(src := s.src[l.i := x]))
    else match l
      case Cancel => if s.done then None else Some(s.(done := true))
      case Forward(i) => ForwardStep(s, i)
      case CloseUpdate =>
        if s.wg != 0 || s.closer then None
        else if s.upd.closed then Crash(s)
        else Some(s.(closer := true, upd := s.upd.(closed := true)))
      case Receive =>
        if !s.cons.Waiting? || s.upd.buf == [] then None
        else Some(s.(cons := Applying(s.upd.buf[0]), upd := s.upd.(buf := s.upd.buf[1..])))
      case Apply => ApplyStep(s)
      case Stop =>
        if !s.cons.Waiting? || s.upd.buf != [] || !s.upd.closed then None else Some(s.(cons := Stopped))
  }

  function ForwardStep(s: State, i: nat): Option<State> {
    if i >= |s.src| || !s.src[i].fwd.Holding? then None
    else if s.upd.closed then Crash(s)
    else if |s.upd.buf| >= CAPACITY then None
    else Some(s.(upd := s.upd.(buf := s.upd.buf + [s.src[i].fwd.m]), src := s.src[i := s.src[i].(fwd := Idle)]))
  }

  /** An error or a panic of the store ends the process. */
  function ApplyStep(s: State): Option<State> {
    if !s.cons.Applying? then None
    else
      var r := ConsumeSpec(s.mem, s.cons.m);
      if r.out.Blocked? then None
      else Some(s.(cons := Waiting, mem := r.st, applied := s.applied + [s.cons.m], crashed := !r.out.Done?))
  }

  /** A run: the state after a list of labels, if each was enabled in turn. */
  function Run(s: State, ls: seq<Label>): Option<State>
    decreases ls
  {
    if ls == [] then Some(s)
    else
      match Step(s, ls[0])
      case None => None
      case Some(s') => Run(s', ls[1..])
  }
}
