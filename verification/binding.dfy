/** The three exported calls of the binding — `init`, `free` and
    `full_default` — over one process-wide state: the context table and the
    single background worker. Every call first joins the worker; the join is
    modelled as the running job finishing. */
module Binding {
  import opened Wrappers
  import opened ContextPool
  import ThreadBudget

  /** The language the job is configured with, whatever the caller passed. */
  const AutoLanguage := "auto"

  /** The decoder settings `full_default` fills in from its arguments. */
  datatype Params = Params(
    language: string,
    translate: bool,
    maxLen: int,
    threads: int,
    tokenTimestamps: bool,
    splitOnWord: bool,
    diarize: bool)

  /** A transcription handed to the worker: the slot it runs on, its settings
      and its own copy of the audio samples. */
  datatype Job = Job(slot: nat, params: Params, audio: seq<real>)

  datatype State = State(pool: Pool, worker: Option<Job>)

  const Initial := State(EmptyPool, None)

  /** The arguments of one `full_default` call, with the host's reported
      hardware concurrency. */
  datatype Request = Request(
    audio: seq<real>,
    lang: string,
    nthreads: int,
    translate: bool,
    maxLen: int,
    diarize: bool,
    hardware: int)

  /** The safety invariant the joins establish: a running job's slot is
      bound, so no decode can see a context that has been freed. */
  predicate Safe(s: State) {
    s.worker.Some? ==> Bound(s.pool, s.worker.value.slot)
  }

  /** `g_worker.join()`: wait for the running job, if any, to finish. */
  function Join(s: State): (r: State)
    ensures r.worker.None? && r.pool == s.pool
  {
    s.(worker := None)
  }

  datatype Reply = Reply(state: State, code: int)

  /** `init`: join, then bind the first null slot to the loaded context. */
  function InitCall(s: State, load: LoadOutcome): (r: Reply)
    ensures r.state.worker.None?
    ensures r.code == Init(s.pool, load).handle && r.state.pool == Init(s.pool, load).pool
  {
    var res := Init(Join(s).pool, load);
    Reply(State(res.pool, None), res.handle)
  }

  /** `free`: join, then null the named slot. */
  function FreeCall(s: State, h: Size): (r: State)
    ensures r.worker.None?
    ensures r.pool == Free(s.pool, h)
  {
    State(Free(Join(s).pool, h), None)
  }

  function JobParams(q: Request): (p: Params)
    ensures p.language == AutoLanguage
    ensures p.threads <= q.nthreads && p.threads <= ThreadBudget.MaxThreads
    ensures p.tokenTimestamps && p.splitOnWord
  {
    Params(AutoLanguage, q.translate, q.maxLen, ThreadBudget.ThreadCount(q.nthreads, q.hardware), true, true, q.diarize)
  }

  /** `full_default`: join, check the handle, and on success start a job on
      the worker. The table itself is never changed. */
  function FullDefault(s: State, h: Size, q: Request): (r: Reply)
    ensures r.state.pool == s.pool
    ensures r.code == OutOfRange <==> !(1 <= h <= Capacity)
    ensures r.code == NullContext <==> 1 <= h <= Capacity && !Bound(s.pool, h - 1)
    ensures r.code == 0 <==> Bound(s.pool, h - 1)
    ensures r.code != 0 ==> r.state.worker.None?
    ensures r.code == 0 ==>
      && r.state.worker.Some?
      && r.state.worker.value.slot == h - 1
      && r.state.worker.value.audio == q.audio
      && r.state.worker.value.params.language == AutoLanguage
      && r.state.worker.value.params.threads == ThreadBudget.ThreadCount(q.nthreads, q.hardware)
  {
    var joined := Join(s);
    match Resolve(joined.pool, h)
    case Err(code) => Reply(joined, code)
    case Ok(i) => Reply(joined.(worker := Some(Job(i, JobParams(q), q.audio))), 0)
  }

  /** The `lang` argument has no effect. */
  lemma LanguageIgnored(s: State, h: Size, q: Request, lang: string)
    ensures FullDefault(s, h, q.(lang := lang)) == FullDefault(s, h, q)
  {
  }

  /** One exported call with the outcome of whatever it depends on. */
  datatype Call =
    | InitOp(load: LoadOutcome)
    | FreeOp(handle: Size)
    | FullDefaultOp(handle: Size, request: Request)

  function Step(s: State, c: Call): (r: State)
    ensures r.pool == s.pool || c.InitOp? || c.FreeOp?
  {
    match c
    case InitOp(load) => InitCall(s, load).state
    case FreeOp(h) => FreeCall(s, h)
    case FullDefaultOp(h, q) => FullDefault(s, h, q).state
  }

  /** The state after a sequence of calls, the first call first. */
  function Run(s: State, calls: seq<Call>): State
    decreases |calls|
  {
    if |calls| == 0 then s else Run(Step(s, calls[0]), calls[1..])
  }

  /** Every call leaves a state in which the running job, if any, runs on a
      bound slot. */
  lemma StepSafe(s: State, c: Call)
    ensures Safe(Step(s, c))
  {
  }

  /** From a safe state (the initial one is), after any sequence of calls the
      state is still safe and at most four contexts are live. */
  lemma {:induction false} RunSafe(s: State, calls: seq<Call>)
    requires Safe(s)
    ensures Safe(Run(s, calls))
    ensures Live(Run(s, calls).pool) <= Capacity
    decreases |calls|
  {
    if |calls| > 0 {
      StepSafe(s, calls[0]);
      RunSafe(Step(s, calls[0]), calls[1..]);
    }
  }

  /** Only `full_default` starts a job, and only the call that started it can
      leave it running: every other call joins it first. */
  lemma AtMostOneJob(s: State, c: Call)
    ensures Step(s, c).worker.Some? ==> c.FullDefaultOp?
  {
  }

  /** `free(h)` followed by `full_default(h, ...)` reports the null slot. */
  lemma FreeThenFullDefault(s: State, h: Size, q: Request)
    requires 1 <= h <= Capacity
    ensures FullDefault(FreeCall(s, h), h, q).code == NullContext
  {
  }

  /** The scenarios of the exported interface: the first `init` on an empty
      table returns handle 1; with every slot filled `init` returns 0; handle
      5 is out of range. */
  lemma Scenarios(load: LoadOutcome, q: Request)
    requires load.Loaded?
    ensures InitCall(Initial, load).code == 1
    ensures forall s: State :: Full(s.pool) ==> InitCall(s, load).code == 0
    ensures forall s: State :: FullDefault(s, 5, q).code == OutOfRange
    ensures forall s: State :: FullDefault(s, 0, q).code == OutOfRange
  {
  }
}
