/**
 The job manager as a machine of interleaved threads. Every critical section
 and every entry to or return from a job callback is one atomic step; between
 steps a thread keeps its locals in a frame. A thread inside a callback may
 call the manager again, so each thread has a stack of frames.
 */
module JobProtocol {
  import opened Wrappers
  import opened JobRuntimes
  import L = JobLifecycle

  /** Program points, in the order the source reaches them. */
  datatype Pc =
    // solar_os_jobs_start
    | StartEnter | StartWait | StartCallStop | StartStopping | StartRelease | StartQueue
    | StartCall | Starting | StartCommit
    // solar_os_jobs_stop
    | StopEnter | StopFree | StopWait | StopCallStop | StopStopping | StopFinish
    // solar_os_jobs_tick, one job at a time: retry, dispatch, deferred stop
    | TickRetry | RetryClaim | RetryCall | RetryStarting | RetryCommit | RetryFree
    | TickDispatch | CallEvent | Eventing | TickEnd | DeferCallStop | DeferStopping | DeferFinish

  /** A frame's locals; those a program point does not use keep their last value. */
  datatype Frame = Frame(
    pc: Pc,
    job: nat,
    generation: nat,
    callStop: bool,
    ret: Status,
    offered: Option<Ptr>,     // new_pending, not yet published
    taken: Option<Ptr>,     // a record taken out of the slot, to be freed
    seen: Ptr,              // the record a retry observed
    epoch: nat)             // history: the epoch at that observation

  const NO_PTR := Ptr(0, 0)

  function NewFrame(pc: Pc, job: nat, offered: Option<Ptr>): Frame {
    Frame(pc, job, 0, false, Ok, offered, None, NO_PTR, 0)
  }

  /** Frames of the thread that holds the slot's lifecycle_busy flag. */
  predicate Owns(pc: Pc) {
    pc in {StartWait, StartCallStop, StartStopping, StartRelease, StartQueue, StartCall, Starting, StartCommit,
           StopWait, StopCallStop, StopStopping, StopFinish, RetryCall, RetryStarting, RetryCommit,
           DeferCallStop, DeferStopping, DeferFinish}
  }

  /** Frames suspended inside a callback of their job. */
  predicate InCallback(pc: Pc) {
    pc in {StartStopping, Starting, StopStopping, RetryStarting, Eventing, DeferStopping}
  }

  predicate OfStart(pc: Pc) {
    pc in {StartEnter, StartWait, StartCallStop, StartStopping, StartRelease, StartQueue, StartCall, Starting,
           StartCommit}
  }

  predicate OfStop(pc: Pc) {
    pc in {StopEnter, StopFree, StopWait, StopCallStop, StopStopping, StopFinish}
  }

  predicate OfTick(pc: Pc) {
    !OfStart(pc) && !OfStop(pc)
  }

  /** Tick frames whose locals constrain the slot. */
  predicate Watches(pc: Pc) {
    pc in {RetryClaim, CallEvent, Eventing, TickEnd}
  }

  // ----- queued start records and their accounting -----

  datatype Holder = InSlot(job: nat) | InFrame(tid: Tid, depth: nat)

  datatype Record = Record(serial: nat, holder: Holder, queued: bool)

  /**
   Live records by address, the wait counters, and a flag raised by a double
   free, by use of a dead record, or by the counter clamp.
   */
  datatype Pool = Pool(
    live: map<nat, Record>,
    serials: nat,
    waiting: nat,
    waitSuccesses: nat,
    waitCancellations: nat,
    queuedStarts: nat,      // history: starts ever queued
    fault: bool)

  function Alloc(p: Pool, addr: nat, h: Holder): Pool {
    p.(live := p.live[addr := Record(p.serials, h, false)], serials := p.serials + 1)
  }

  /** solar_os_memory_free of a record that was never queued. */
  function Discard(p: Pool, record: Option<Ptr>): Pool {
    if record.None? then p
    else p.(live := p.live - {record.value.addr}, fault := p.fault || record.value.addr !in p.live)
  }

  function Move(p: Pool, record: Option<Ptr>, h: Holder): Pool {
    if record.None? then p
    else if record.value.addr !in p.live then p.(fault := true)
    else p.(live := p.live[record.value.addr := p.live[record.value.addr].(holder := h)])
  }

  /** Publishing a record together with solar_os_task_note_wait_queued. */
  function Enqueue(p: Pool, record: Ptr, job: nat): Pool {
    if record.addr !in p.live then p.(fault := true)
    else p.(live := p.live[record.addr := p.live[record.addr].(holder := InSlot(job), queued := true)],
            waiting := p.waiting + 1, queuedStarts := p.queuedStarts + 1)
  }

  /** job_pending_start_free with its solar_os_task_note_wait_finished. */
  function Finish(p: Pool, record: Option<Ptr>, launched: bool): Pool {
    if record.None? then p
    else Discard(p, record).(
           waiting := if p.waiting > 0 then p.waiting - 1 else 0,
           fault := p.fault || record.value.addr !in p.live || p.waiting == 0,
           waitSuccesses := p.waitSuccesses + (if launched then 1 else 0),
           waitCancellations := p.waitCancellations + (if launched then 0 else 1))
  }

  /** Reading a record's arguments for the job's start callback. */
  function Read(p: Pool, record: Ptr): Pool {
    p.(fault := p.fault || record.addr !in p.live || p.live[record.addr].serial != record.serial)
  }

  // ----- machine states -----

  /** History: who must clear a slot's busy flag. */
  datatype Owner = Nobody | Deferred | Thread(tid: Tid, depth: nat)

  datatype Job = Job(rt: Runtime, owner: Owner, epoch: nat, log: seq<L.Event>)

  datatype State = State(jobs: seq<Job>, threads: seq<seq<Frame>>, pool: Pool)

  /** What the environment decides in a step. */
  datatype Choice = Choice(admitted: bool, due: bool, ret: Status, alloc: Option<nat>)

  datatype Action =
    | CallStart(job: nat, alloc: Option<nat>)
    | CallStop(job: nat)
    | CallTick
    | WorkerMarks(job: nat, generation: nat, err: Status)
    | Advance(choice: Choice)

  function InitRuntime(): Runtime {
    Runtime(Stopped, Ok, 0, 0, 0, None, false, false, None)
  }

  function InitState(jobs: nat, threads: nat): State {
    State(seq(jobs, _ => Job(InitRuntime(), Nobody, 0, [])), seq(threads, _ => []),
          Pool(map[], 0, 0, 0, 0, 0, false))
  }

  // ----- the effect of one step on its slot, its frame and the pool -----

  datatype Effect = Effect(frame: Option<Frame>, job: Job, pool: Pool)

  function At(f: Frame, pc: Pc): Option<Frame> {
    Some(f.(pc := pc))
  }

  function Logged(jb: Job, ev: L.Event): Job {
    jb.(log := jb.log + [ev])
  }

  function Prev(epoch: nat): nat {
    if epoch == 0 then 0 else epoch - 1
  }

  /** An incarnation that has no stop callback ends when it is claimed. */
  function RetireSilently(jb: Job, d: JobDesc): Job {
    if jb.rt.state == Running && !d.HasStop() then Logged(jb, L.Retire(jb.epoch)) else jb
  }

  function DoStartEnter(d: JobDesc, jb: Job, f: Frame, p: Pool, t: Tid, m: nat): Effect {
    if StartRefused(jb.rt, d, t) then Effect(None, jb, Discard(p, f.offered))
    else
      var rt := ClaimStart(jb.rt);
      Effect(
        Some(f.(pc := StartWait, generation := rt.generation, taken := jb.rt.pending,
                callStop := jb.rt.state == Running && d.HasStop())),
        RetireSilently(jb, d).(rt := rt, owner := Thread(t, m), epoch := jb.epoch + 1),
        Move(p, jb.rt.pending, InFrame(t, m)))
  }

  /** Both callback-wait loops: one poll. */
  function DoWait(jb: Job, f: Frame, p: Pool, calls: Pc, after: Pc): Effect {
    if jb.rt.callbackRefs != 0 then Effect(Some(f), jb, p)
    else Effect(At(f, if f.callStop then calls else after), jb, p)
  }

  function DoCallStop(jb: Job, f: Frame, p: Pool, inside: Pc): Effect {
    Effect(At(f, inside), Logged(jb, L.StopBegin(Prev(jb.epoch))), p)
  }

  function DoStopReturns(jb: Job, f: Frame, p: Pool, after: Pc): Effect {
    Effect(At(f, after), Logged(jb, L.StopEnd(Prev(jb.epoch))), p)
  }

  function DoStartRelease(jb: Job, f: Frame, p: Pool): Effect {
    Effect(Some(f.(pc := if f.offered.Some? then StartQueue else StartCall, taken := None)),
           jb, Finish(p, f.taken, false))
  }

  function DoStartQueue(jb: Job, f: Frame, p: Pool): Effect {
    if f.offered.None? then Effect(None, jb, p)
    else if StillMine(jb.rt, f.generation) then
      Effect(None, jb.(rt := QueueStart(jb.rt, f.offered.value), owner := Nobody),
             Enqueue(p, f.offered.value, f.job))
    else Effect(None, jb, Discard(p, f.offered))
  }

  /** A missing start callback counts as one that returned OK at once. */
  function DoCall(d: JobDesc, jb: Job, f: Frame, p: Pool, inside: Pc, after: Pc): Effect {
    var begun := Logged(jb, L.StartBegin(jb.epoch));
    if d.HasStart() then Effect(At(f, inside), begun, p)
    else Effect(Some(f.(pc := after, ret := Ok)), Logged(begun, L.StartEnd(jb.epoch, true)), p)
  }

  function DoStartReturns(d: JobDesc, jb: Job, f: Frame, p: Pool, t: Tid, m: nat, c: Choice): Effect {
    var ended := Logged(jb, L.StartEnd(jb.epoch, c.ret == Ok));
    if c.ret == NoMemory && d.present && d.needsStack && c.alloc.Some? then
      Effect(Some(f.(pc := StartCommit, ret := c.ret,
                     offered := Some(Ptr(c.alloc.value, p.serials)))),
             ended, Alloc(p, c.alloc.value, InFrame(t, m)))
    else Effect(Some(f.(pc := StartCommit, ret := c.ret)), ended, p)
  }

  function DoStartCommit(jb: Job, f: Frame, p: Pool): Effect {
    if StillMine(jb.rt, f.generation) then
      Effect(None, jb.(rt := CommitStart(jb.rt, f.ret, f.offered), owner := Nobody),
             if f.offered.Some? then Enqueue(p, f.offered.value, f.job) else p)
    else Effect(None, jb, Discard(p, f.offered))
  }

  function DoStopEnter(d: JobDesc, jb: Job, f: Frame, p: Pool, t: Tid, m: nat): Effect {
    if jb.rt.busy then Effect(None, jb, p)
    else if jb.rt.state != Running then
      Effect(Some(f.(pc := StopFree, taken := jb.rt.pending)), jb.(rt := CancelStart(jb.rt)),
             Move(p, jb.rt.pending, InFrame(t, m)))
    else
      var rt := ClaimStop(jb.rt, t);
      var claimed := RetireSilently(jb, d).(rt := rt, epoch := jb.epoch + 1);
      if rt.stopAfterCallback then Effect(None, claimed.(owner := Deferred), p)
      else Effect(Some(f.(pc := StopWait, generation := rt.generation, callStop := d.HasStop())),
                  claimed.(owner := Thread(t, m)), p)
  }

  function DoStopFinish(jb: Job, f: Frame, p: Pool, next: Option<Frame>): Effect {
    if StillMine(jb.rt, f.generation) then
      Effect(next, jb.(rt := FinishStop(jb.rt), owner := Nobody), p)
    else Effect(next, jb, p)
  }

  function DoTickRetry(d: JobDesc, jb: Job, f: Frame, p: Pool, c: Choice): Effect {
    if RetryReady(jb.rt, d) && c.admitted then
      Effect(Some(f.(pc := RetryClaim, seen := jb.rt.pending.value, generation := jb.rt.generation,
                     epoch := jb.epoch)), jb, p)
    else Effect(At(f, TickDispatch), jb, p)
  }

  function DoRetryClaim(jb: Job, f: Frame, p: Pool, t: Tid, m: nat): Effect {
    if RetryUnchanged(jb.rt, f.generation, f.seen, false) then
      Effect(Some(f.(pc := RetryCall, seen := jb.rt.pending.value)),
             jb.(rt := ClaimRetry(jb.rt), owner := Thread(t, m)), p)
    else Effect(At(f, TickDispatch), jb, p)
  }

  function DoRetryCommit(jb: Job, f: Frame, p: Pool, t: Tid, m: nat): Effect {
    if RetryUnchanged(jb.rt, f.generation, f.seen, true) then
      var committed := jb.(rt := CommitRetry(jb.rt, f.ret), owner := Nobody);
      if f.ret == NoMemory then Effect(At(f, TickDispatch), committed, p)
      else Effect(Some(f.(pc := RetryFree, taken := Some(f.seen))), committed,
                  Move(p, Some(f.seen), InFrame(t, m)))
    else Effect(At(f, TickDispatch), jb, p)
  }

  function DoDispatch(d: JobDesc, jb: Job, f: Frame, p: Pool, t: Tid, c: Choice, next: Option<Frame>): Effect {
    if Dispatchable(jb.rt, d) && c.due then
      Effect(Some(f.(pc := CallEvent, generation := jb.rt.generation, epoch := jb.epoch)),
             Logged(jb, L.Admit(jb.epoch)).(rt := EnterCallback(jb.rt, t)), p)
    else Effect(next, jb, p)
  }

  function DoCallEvent(jb: Job, f: Frame, p: Pool): Effect {
    Effect(At(f, Eventing), Logged(jb, L.EventBegin(f.epoch)), p)
  }

  function DoTickEnd(d: JobDesc, jb: Job, f: Frame, p: Pool, t: Tid, m: nat, next: Option<Frame>): Effect {
    var dropped := DropCallback(jb.rt);
    var rt := CreditTick(TakeDeferredStop(dropped), f.generation);
    if StopDue(dropped) then
      var owned := jb.(rt := rt, owner := Thread(t, m));
      var g := f.(generation := jb.rt.generation, callStop := d.HasStop());
      Effect(At(g, if d.HasStop() then DeferCallStop else DeferFinish), owned, p)
    else if TickCredited(dropped, f.generation) then
      Effect(next, Logged(jb, L.Credit(jb.epoch)).(rt := rt), p)
    else Effect(next, jb.(rt := rt), p)
  }

  /** The frame that carries the tick on to the following job, if there is one. */
  function NextJob(f: Frame, jobs: nat): Option<Frame> {
    if f.job + 1 < jobs then Some(NewFrame(TickRetry, f.job + 1, None)) else None
  }

  function PerformStart(d: JobDesc, jb: Job, f: Frame, p: Pool, t: Tid, m: nat, c: Choice): Effect
    requires OfStart(f.pc)
  {
    match f.pc
    case StartEnter => DoStartEnter(d, jb, f, p, t, m)
    case StartWait => DoWait(jb, f, p, StartCallStop, StartRelease)
    case StartCallStop => DoCallStop(jb, f, p, StartStopping)
    case StartStopping => DoStopReturns(jb, f, p, StartRelease)
    case StartRelease => DoStartRelease(jb, f, p)
    case StartQueue => DoStartQueue(jb, f, p)
    case StartCall => DoCall(d, jb, f, p, Starting, StartCommit)
    case Starting => DoStartReturns(d, jb, f, p, t, m, c)
    case StartCommit => DoStartCommit(jb, f, p)
  }

  function PerformStop(d: JobDesc, jb: Job, f: Frame, p: Pool, t: Tid, m: nat): Effect
    requires OfStop(f.pc)
  {
    match f.pc
    case StopEnter => DoStopEnter(d, jb, f, p, t, m)
    case StopFree => Effect(None, jb, Finish(p, f.taken, false))
    case StopWait => DoWait(jb, f, p, StopCallStop, StopFinish)
    case StopCallStop => DoCallStop(jb, f, p, StopStopping)
    case StopStopping => DoStopReturns(jb, f, p, StopFinish)
    case StopFinish => DoStopFinish(jb, f, p, None)
  }

  function DoRetryReturns(jb: Job, f: Frame, p: Pool, c: Choice): Effect {
    Effect(Some(f.(pc := RetryCommit, ret := c.ret)), Logged(jb, L.StartEnd(jb.epoch, c.ret == Ok)), p)
  }

  function DoRetryFree(jb: Job, f: Frame, p: Pool): Effect {
    Effect(Some(f.(pc := TickDispatch, taken := None)), jb, Finish(p, f.taken, f.ret == Ok))
  }

  function DoEventReturns(jb: Job, f: Frame, p: Pool): Effect {
    Effect(At(f, TickEnd), Logged(jb, L.EventEnd(f.epoch)), p)
  }

  function PerformTick(d: JobDesc, jb: Job, f: Frame, p: Pool, t: Tid, m: nat, c: Choice, jobs: nat): Effect
    requires OfTick(f.pc)
  {
    match f.pc
    case TickRetry => DoTickRetry(d, jb, f, p, c)
    case RetryClaim => DoRetryClaim(jb, f, p, t, m)
    case RetryCall => DoCall(d, jb, f, Read(p, f.seen), RetryStarting, RetryCommit)
    case RetryStarting => DoRetryReturns(jb, f, Read(p, f.seen), c)
    case RetryCommit => DoRetryCommit(jb, f, p, t, m)
    case RetryFree => DoRetryFree(jb, f, p)
    case TickDispatch => DoDispatch(d, jb, f, p, t, c, NextJob(f, jobs))
    case CallEvent => DoCallEvent(jb, f, p)
    case Eventing => DoEventReturns(jb, f, p)
    case TickEnd => DoTickEnd(d, jb, f, p, t, m, NextJob(f, jobs))
    case DeferCallStop => DoCallStop(jb, f, p, DeferStopping)
    case DeferStopping => DoStopReturns(jb, f, p, DeferFinish)
    case DeferFinish => DoStopFinish(jb, f, p, NextJob(f, jobs))
  }

  /** The step of frame `f`, the top of thread t's stack at depth m. */
  function Perform(d: JobDesc, jb: Job, f: Frame, p: Pool, t: Tid, m: nat, c: Choice, jobs: nat): Effect {
    if OfStart(f.pc) then PerformStart(d, jb, f, p, t, m, c)
    else if OfStop(f.pc) then PerformStop(d, jb, f, p, t, m)
    else PerformTick(d, jb, f, p, t, m, c, jobs)
  }

  // ----- steps of the whole machine -----

  function Opt(f: Option<Frame>): seq<Frame> {
    if f.Some? then [f.value] else []
  }

  /** Thread t's slot m becomes `f`, job k becomes `jb`. */
  function Put(s: State, t: Tid, m: nat, k: nat, e: Effect): State
    requires t < |s.threads| && m <= |s.threads[t]| && k < |s.jobs|
  {
    State(s.jobs[k := e.job], s.threads[t := s.threads[t][..m] + Opt(e.frame)], e.pool)
  }

  /** Idle threads and threads suspended in a callback may call the manager. */
  predicate MayCall(s: State, t: Tid) {
    t < |s.threads|
    && (s.threads[t] == [] || InCallback(s.threads[t][|s.threads[t]| - 1].pc))
  }

  predicate Free(p: Pool, addr: Option<nat>) {
    addr.Some? ==> addr.value !in p.live
  }

  function Step(ds: seq<JobDesc>, s: State, t: Tid, a: Action): Option<State>
    requires |ds| == |s.jobs|
  {
    match a
    case CallStart(k, addr) =>
      if MayCall(s, t) && k < |s.jobs| && Free(s.pool, addr) then
        var m := |s.threads[t]|;
        if addr.Some? then
          Some(Put(s, t, m, k, Effect(Some(NewFrame(StartEnter, k, Some(Ptr(addr.value, s.pool.serials)))),
                                      s.jobs[k], Alloc(s.pool, addr.value, InFrame(t, m)))))
        else Some(Put(s, t, m, k, Effect(Some(NewFrame(StartEnter, k, None)), s.jobs[k], s.pool)))
      else None
    case CallStop(k) =>
      if MayCall(s, t) && k < |s.jobs| then
        Some(Put(s, t, |s.threads[t]|, k, Effect(Some(NewFrame(StopEnter, k, None)), s.jobs[k], s.pool)))
      else None
    case CallTick =>
      // the main loop ticks only between its other work
      if t == TICKER && t < |s.threads| && s.threads[t] == [] && 0 < |s.jobs| then
        Some(Put(s, t, 0, 0, Effect(Some(NewFrame(TickRetry, 0, None)), s.jobs[0], s.pool)))
      else None
    case WorkerMarks(k, g, err) =>
      if k < |s.jobs| && MarkAccepted(s.jobs[k].rt, g) then
        var jb := s.jobs[k];
        var told := if jb.rt.state == Running then Logged(jb, L.Retire(jb.epoch)) else jb;
        Some(s.(jobs := s.jobs[k := told.(rt := MarkStopped(jb.rt, err))]))
      else None
    case Advance(c) =>
      if t < |s.threads| && s.threads[t] != [] && Free(s.pool, c.alloc) then
        var m := |s.threads[t]| - 1;
        var f := s.threads[t][m];
        if f.job < |s.jobs| then
          Some(Put(s, t, m, f.job,
                   Perform(ds[f.job], s.jobs[f.job], f, s.pool, t, m, c, |s.jobs|)))
        else None
      else None
  }

  /** Some thread can take the machine from `s` to `n` in one step. */
  ghost predicate Moves(ds: seq<JobDesc>, s: State, n: State) {
    |ds| == |s.jobs| && exists t, a :: Step(ds, s, t, a) == Some(n)
  }

  /** A run: the states passed through from the initial one, each by one step of some thread. */
  ghost predicate Run(ds: seq<JobDesc>, states: seq<State>) {
    && states != []
    && (exists threads: nat :: threads > 0 && states[0] == InitState(|ds|, threads))
    && (forall i :: 0 <= i < |states| - 1 ==> Moves(ds, states[i], states[i + 1]))
  }
}
