/** Every step of the job protocol keeps the invariant, one lemma per program point. */
module JobSteps {
  import opened Wrappers
  import opened JobRuntimes
  import opened JobProtocol
  import opened JobInvariant
  import L = JobLifecycle

  predicate SameRecords(f: Frame, g: Frame) {
    f.offered == g.offered && f.taken == g.taken
  }

  /** What a frame's program point demands of its own locals. */
  predicate LocalsOk(f: Frame) {
    && (f.offered.Some? ==> MayOffer(f.pc))
    && (f.pc == StartQueue ==> f.offered.Some?)
    && (f.taken.Some? ==> MayTake(f.pc))
  }

  /** The owning frame of a slot once frame (t, m) has become `f` and the slot `e`. */
  function OwnerAfter(was: Owner, t: Tid, m: nat, jb: Job, f: Option<Frame>, of: Option<Frame>): Option<Frame> {
    if jb.owner == Thread(t, m) then f else if jb.owner == was then of else None
  }

  function WatcherAfter(t: Tid, m: nat, k: nat, f: Option<Frame>, tf: Option<Frame>): Option<Frame> {
    if t == TICKER && m == 0
    then (if f.Some? && f.value.job == k && Watches(f.value.pc) then f else None)
    else tf
  }

  /**
   The control part of a step of frame (t, m) on slot k: who owns the slot, where
   the thread goes, and the slot itself. `of` and `tf` are the slot's owning frame
   and the ticker's watching frame before the step.
   */
  predicate ControlOk(d: JobDesc, was: Owner, t: Tid, m: nat, k: nat, jobs: nat, e: Effect,
                      of: Option<Frame>, tf: Option<Frame>)
  {
    && (e.job.owner == was
        || ((was.Thread? ==> was == Thread(t, m)) && (e.job.owner.Thread? ==> e.job.owner == Thread(t, m))))
    && (e.frame.Some? ==>
          var g := e.frame.value;
          && (g.job == k || (g.pc == TickRetry && g.job < jobs))
          && LocalsOk(g)
          && (OfTick(g.pc) ==> t == TICKER && m == 0)
          && (Owns(g.pc) <==> g.job == k && e.job.owner == Thread(t, m)))
    && (e.job.owner == Thread(t, m) ==> e.frame.Some?)
    && JobOk(d, e.job, OwnerAfter(was, t, m, e.job, e.frame, of), WatcherAfter(t, m, k, e.frame, tf))
  }

  /** Exactly the records of `p` held by slot k and frame (t, m) are the ones these point at. */
  ghost predicate Custody(p: Pool, t: Tid, m: nat, k: nat, pending: Option<Ptr>, f: Option<Frame>) {
    && Held(p, pending, InSlot(k), true)
    && (f.Some? ==> Held(p, f.value.offered, InFrame(t, m), false)
                    && Held(p, f.value.taken, InFrame(t, m), true))
    && (forall a :: a in p.live && p.live[a].holder == InSlot(k) ==> PointsAt(pending, a))
    && (forall a :: a in p.live && p.live[a].holder == InFrame(t, m) ==>
          f.Some? && (PointsAt(f.value.offered, a) || PointsAt(f.value.taken, a)))
  }

  /** The memory part of a step: records and their holders. */
  ghost predicate MemoryOk(p: Pool, t: Tid, m: nat, k: nat, e: Effect) {
    PoolOk(e.pool) && Custody(e.pool, t, m, k, e.job.rt.pending, e.frame) && LocalRecords(p, e.pool, t, m, k)
  }

  ghost predicate StepSound(ds: seq<JobDesc>, s: State, t: Tid, m: nat, k: nat, e: Effect)
    requires |ds| == |s.jobs| && AtTop(s, t, m, k)
  {
    && ControlOk(ds[k], s.jobs[k].owner, t, m, k, |s.jobs|, e, OwnerFrame(s, k), TickFrame(s, k))
    && MemoryOk(s.pool, t, m, k, e)
  }

  lemma SlotAfter(ds: seq<JobDesc>, s: State, t: Tid, m: nat, k: nat, e: Effect)
    requires Inv(ds, s) && AtTop(s, t, m, k) && StepSound(ds, s, t, m, k, e)
    ensures SlotOk(ds, Put(s, t, m, k, e), k)
  {
    var n := Put(s, t, m, k, e);
    PutFrames(s, t, m, k, e, TICKER, 0);
    PutFrames(s, t, m, k, e, t, m);
    assert TickFrame(n, k) == WatcherAfter(t, m, k, e.frame, TickFrame(s, k));
    assert SlotOk(ds, s, k);
    if e.job.owner.Thread? && e.job.owner != Thread(t, m) {
      PutFrames(s, t, m, k, e, e.job.owner.tid, e.job.owner.depth);
    }
    assert OwnerFrame(n, k) == OwnerAfter(s.jobs[k].owner, t, m, e.job, e.frame, OwnerFrame(s, k));
  }

  lemma FrameAfter(ds: seq<JobDesc>, s: State, t: Tid, m: nat, k: nat, e: Effect)
    requires Inv(ds, s) && AtTop(s, t, m, k) && e.frame.Some? && StepSound(ds, s, t, m, k, e)
    ensures HasFrame(Put(s, t, m, k, e), t, m) && FrameOk(Put(s, t, m, k, e), t, m)
  {
    var n := Put(s, t, m, k, e);
    PutFrames(s, t, m, k, e, t, m);
    var g := e.frame.value;
    assert |n.threads[t]| == m + 1;
    if g.job != k {
      assert SlotOk(ds, s, g.job);
    }
  }

  /** A step whose control and memory parts are right keeps the invariant. */
  lemma SoundStep(ds: seq<JobDesc>, s: State, t: Tid, m: nat, k: nat, e: Effect)
    requires Inv(ds, s) && AtTop(s, t, m, k) && StepSound(ds, s, t, m, k, e)
    ensures Inv(ds, Put(s, t, m, k, e))
  {
    var n := Put(s, t, m, k, e);
    SlotAfter(ds, s, t, m, k, e);
    if e.frame.Some? {
      FrameAfter(ds, s, t, m, k, e);
    }
    forall a | a in e.pool.live && !Elsewhere(e.pool, a, t, m, k)
      ensures RecordOk(n, a)
    {
      PutFrames(s, t, m, k, e, t, m);
    }
    StepRule(ds, s, t, m, k, e);
  }

  /** The frame that runs, as seen from its slot. */
  predicate Sees(jb: Job, f: Frame, t: Tid, m: nat, of: Option<Frame>, tf: Option<Frame>) {
    && LocalsOk(f)
    && (OfTick(f.pc) ==> t == TICKER && m == 0)
    && (Owns(f.pc) <==> jb.owner == Thread(t, m))
    && (Owns(f.pc) ==> of == Some(f))
    && (Watches(f.pc) ==> tf == Some(f))
    && (t == TICKER && m == 0 && !Watches(f.pc) ==> tf == None)
    && (t == TICKER && m > 0 && tf.Some? ==> tf.value.pc == Eventing)
  }

  /** The running frame, its slot, and what the invariant says of both. */
  lemma Unfold(ds: seq<JobDesc>, s: State, t: Tid, m: nat)
    requires Inv(ds, s) && HasFrame(s, t, m) && |s.threads[t]| == m + 1
    ensures var f := s.threads[t][m]; var k := f.job;
      && k < |s.jobs| && AtTop(s, t, m, k)
      && Sees(s.jobs[k], f, t, m, OwnerFrame(s, k), TickFrame(s, k))
      && JobOk(ds[k], s.jobs[k], OwnerFrame(s, k), TickFrame(s, k))
      && Held(s.pool, s.jobs[k].rt.pending, InSlot(k), true)
      && Held(s.pool, f.offered, InFrame(t, m), false)
      && Held(s.pool, f.taken, InFrame(t, m), true)
  {
    assert FrameOk(s, t, m);
    assert SlotOk(ds, s, s.threads[t][m].job);
  }

  /** The invariant gives the running frame and its slot custody of their records. */
  lemma CustodyBefore(ds: seq<JobDesc>, s: State, t: Tid, m: nat)
    requires Inv(ds, s) && HasFrame(s, t, m) && |s.threads[t]| == m + 1
    ensures var f := s.threads[t][m];
      f.job < |s.jobs| && Custody(s.pool, t, m, f.job, s.jobs[f.job].rt.pending, Some(f))
  {
    Unfold(ds, s, t, m);
    forall a | a in s.pool.live
      ensures RecordOk(s, a)
    {
    }
  }

  /** The step of the running frame keeps the invariant if its two parts are right. */
  lemma FrameStep(ds: seq<JobDesc>, s: State, t: Tid, m: nat, e: Effect)
    requires Inv(ds, s) && HasFrame(s, t, m) && |s.threads[t]| == m + 1
    requires s.threads[t][m].job < |s.jobs|
    requires var k := s.threads[t][m].job;
      && ControlOk(ds[k], s.jobs[k].owner, t, m, k, |s.jobs|, e, OwnerFrame(s, k), TickFrame(s, k))
      && MemoryOk(s.pool, t, m, k, e)
    ensures Inv(ds, Put(s, t, m, s.threads[t][m].job, e))
  {
    Unfold(ds, s, t, m);
    SoundStep(ds, s, t, m, s.threads[t][m].job, e);
  }

  // ----- memory, step by step -----

  lemma QuietMemory(p: Pool, t: Tid, m: nat, k: nat, jb: Job, f: Frame, e: Effect)
    requires PoolOk(p) && Custody(p, t, m, k, jb.rt.pending, Some(f))
    requires e.pool == p && e.job.rt.pending == jb.rt.pending
    requires e.frame.Some? ==> SameRecords(e.frame.value, f)
    requires e.frame.None? ==> f.offered == None && f.taken == None
    ensures MemoryOk(p, t, m, k, e)
  {
  }

  /** The slot's record passes to the frame. */
  lemma TakeMemory(p: Pool, t: Tid, m: nat, k: nat, jb: Job, f: Frame, e: Effect)
    requires PoolOk(p) && Custody(p, t, m, k, jb.rt.pending, Some(f)) && f.taken == None
    requires e.pool == Move(p, jb.rt.pending, InFrame(t, m)) && e.job.rt.pending == None
    requires e.frame.Some? && e.frame.value.offered == f.offered && e.frame.value.taken == jb.rt.pending
    ensures MemoryOk(p, t, m, k, e)
  {
    MoveKeeps(p, jb.rt.pending, InSlot(k), InFrame(t, m));
  }

  /** The frame frees the record it took, with the wait accounting. */
  lemma FinishMemory(p: Pool, t: Tid, m: nat, k: nat, jb: Job, f: Frame, launched: bool, e: Effect)
    requires PoolOk(p) && Custody(p, t, m, k, jb.rt.pending, Some(f))
    requires e.pool == Finish(p, f.taken, launched) && e.job == jb
    requires if e.frame.Some? then e.frame.value.offered == f.offered && e.frame.value.taken == None
             else f.offered == None
    ensures MemoryOk(p, t, m, k, e)
  {
    FinishKeeps(p, f.taken, InFrame(t, m), launched);
  }

  /** The frame frees a record that was never queued and ends. */
  lemma DiscardMemory(p: Pool, t: Tid, m: nat, k: nat, jb: Job, f: Frame, e: Effect)
    requires PoolOk(p) && Custody(p, t, m, k, jb.rt.pending, Some(f)) && f.taken == None
    requires e.pool == Discard(p, f.offered) && e.job == jb && e.frame == None
    ensures MemoryOk(p, t, m, k, e)
  {
    DiscardKeeps(p, f.offered, InFrame(t, m));
  }

  /** The frame publishes its record in the empty slot and ends. */
  lemma EnqueueMemory(p: Pool, t: Tid, m: nat, k: nat, jb: Job, f: Frame, e: Effect)
    requires PoolOk(p) && Custody(p, t, m, k, jb.rt.pending, Some(f)) && f.taken == None
    requires jb.rt.pending == None && f.offered.Some?
    requires e.pool == Enqueue(p, f.offered.value, k)
    requires e.job.rt.pending == f.offered && e.frame == None
    ensures MemoryOk(p, t, m, k, e)
  {
    EnqueueKeeps(p, f.offered.value, InFrame(t, m), k);
  }

  /** The frame obtains a new record. */
  lemma AllocMemory(p: Pool, t: Tid, m: nat, k: nat, pending: Option<Ptr>, a: nat, e: Effect)
    requires PoolOk(p) && Held(p, pending, InSlot(k), true) && a !in p.live
    requires forall b :: b in p.live && p.live[b].holder == InSlot(k) ==> PointsAt(pending, b)
    requires forall b :: b in p.live ==> p.live[b].holder != InFrame(t, m)
    requires e.pool == Alloc(p, a, InFrame(t, m)) && e.job.rt.pending == pending
    requires e.frame.Some? && e.frame.value.offered == Some(Ptr(a, p.serials)) && e.frame.value.taken == None
    ensures MemoryOk(p, t, m, k, e)
  {
    AllocKeeps(p, a, InFrame(t, m));
  }

  // ----- control, program point by program point -----

  lemma StartWaitControl(d: JobDesc, jb: Job, f: Frame, p: Pool, t: Tid, m: nat, jobs: nat,
                      of: Option<Frame>, tf: Option<Frame>)
    requires JobOk(d, jb, of, tf) && Sees(jb, f, t, m, of, tf) && f.pc == StartWait
    ensures ControlOk(d, jb.owner, t, m, f.job, jobs, DoWait(jb, f, p, StartCallStop, StartRelease), of, tf)
  {
    hide L.PhaseOf, GenerationOf;
  }

  lemma StopWaitControl(d: JobDesc, jb: Job, f: Frame, p: Pool, t: Tid, m: nat, jobs: nat,
                      of: Option<Frame>, tf: Option<Frame>)
    requires JobOk(d, jb, of, tf) && Sees(jb, f, t, m, of, tf) && f.pc == StopWait
    ensures ControlOk(d, jb.owner, t, m, f.job, jobs, DoWait(jb, f, p, StopCallStop, StopFinish), of, tf)
  {
    hide L.PhaseOf, GenerationOf;
  }

  lemma StartCallStopControl(d: JobDesc, jb: Job, f: Frame, p: Pool, t: Tid, m: nat, jobs: nat,
                      of: Option<Frame>, tf: Option<Frame>)
    requires JobOk(d, jb, of, tf) && Sees(jb, f, t, m, of, tf) && f.pc == StartCallStop
    ensures ControlOk(d, jb.owner, t, m, f.job, jobs, DoCallStop(jb, f, p, StartStopping), of, tf)
  {
    hide L.PhaseOf, GenerationOf;
    L.PhaseSnoc(jb.log, L.StopBegin(Prev(jb.epoch)));
  }

  lemma StopCallStopControl(d: JobDesc, jb: Job, f: Frame, p: Pool, t: Tid, m: nat, jobs: nat,
                      of: Option<Frame>, tf: Option<Frame>)
    requires JobOk(d, jb, of, tf) && Sees(jb, f, t, m, of, tf) && f.pc == StopCallStop
    ensures ControlOk(d, jb.owner, t, m, f.job, jobs, DoCallStop(jb, f, p, StopStopping), of, tf)
  {
    hide L.PhaseOf, GenerationOf;
    L.PhaseSnoc(jb.log, L.StopBegin(Prev(jb.epoch)));
  }

  lemma DeferCallStopControl(d: JobDesc, jb: Job, f: Frame, p: Pool, t: Tid, m: nat, jobs: nat,
                      of: Option<Frame>, tf: Option<Frame>)
    requires JobOk(d, jb, of, tf) && Sees(jb, f, t, m, of, tf) && f.pc == DeferCallStop
    ensures ControlOk(d, jb.owner, t, m, f.job, jobs, DoCallStop(jb, f, p, DeferStopping), of, tf)
  {
    hide L.PhaseOf, GenerationOf;
    L.PhaseSnoc(jb.log, L.StopBegin(Prev(jb.epoch)));
  }

  lemma StartStoppingControl(d: JobDesc, jb: Job, f: Frame, p: Pool, t: Tid, m: nat, jobs: nat,
                      of: Option<Frame>, tf: Option<Frame>)
    requires JobOk(d, jb, of, tf) && Sees(jb, f, t, m, of, tf) && f.pc == StartStopping
    ensures ControlOk(d, jb.owner, t, m, f.job, jobs, DoStopReturns(jb, f, p, StartRelease), of, tf)
  {
    hide L.PhaseOf, GenerationOf;
    L.PhaseSnoc(jb.log, L.StopEnd(Prev(jb.epoch)));
  }

  lemma StopStoppingControl(d: JobDesc, jb: Job, f: Frame, p: Pool, t: Tid, m: nat, jobs: nat,
                      of: Option<Frame>, tf: Option<Frame>)
    requires JobOk(d, jb, of, tf) && Sees(jb, f, t, m, of, tf) && f.pc == StopStopping
    ensures ControlOk(d, jb.owner, t, m, f.job, jobs, DoStopReturns(jb, f, p, StopFinish), of, tf)
  {
    hide L.PhaseOf, GenerationOf;
    L.PhaseSnoc(jb.log, L.StopEnd(Prev(jb.epoch)));
  }

  lemma DeferStoppingControl(d: JobDesc, jb: Job, f: Frame, p: Pool, t: Tid, m: nat, jobs: nat,
                      of: Option<Frame>, tf: Option<Frame>)
    requires JobOk(d, jb, of, tf) && Sees(jb, f, t, m, of, tf) && f.pc == DeferStopping
    ensures ControlOk(d, jb.owner, t, m, f.job, jobs, DoStopReturns(jb, f, p, DeferFinish), of, tf)
  {
    hide L.PhaseOf, GenerationOf;
    L.PhaseSnoc(jb.log, L.StopEnd(Prev(jb.epoch)));
  }

  /** Calling start opens a new incarnation; without a callback it is up at once. */
  lemma CallOpens(d: JobDesc, jb: Job, f: Frame, p: Pool, inside: Pc, after: Pc)
    requires IdleBefore(L.PhaseOf(jb.log), jb.epoch)
    ensures var e := DoCall(d, jb, f, p, inside, after); var ph := L.PhaseOf(e.job.log);
      if d.HasStart() then ph == L.Starting(jb.epoch, L.PhaseOf(jb.log).last) else ph == L.Up(jb.epoch)
  {
    hide L.PhaseOf, GenerationOf;
    L.PhaseSnoc(jb.log, L.StartBegin(jb.epoch));
    L.PhaseSnoc(jb.log + [L.StartBegin(jb.epoch)], L.StartEnd(jb.epoch, true));
  }

  /** Going from a call point to the callback, or past a callback that is missing. */
  lemma StartCalled(d: JobDesc, jb: Job, f: Frame, g: Frame, log: seq<L.Event>, p: Pool, t: Tid, m: nat,
                      jobs: nat, of: Option<Frame>, tf: Option<Frame>)
    requires JobOk(d, jb, of, tf) && Sees(jb, f, t, m, of, tf)
    requires f.pc == StartCall && g == f.(pc := g.pc, ret := g.ret)
    requires (g.pc == Starting && L.PhaseOf(log) == L.Starting(jb.epoch, L.PhaseOf(jb.log).last))
             || (g.pc == StartCommit && g.ret == Ok && L.PhaseOf(log) == L.Up(jb.epoch))
    ensures ControlOk(d, jb.owner, t, m, f.job, jobs, Effect(Some(g), jb.(log := log), p), of, tf)
  {
    hide L.PhaseOf, GenerationOf;
  }

  lemma RetryCalled(d: JobDesc, jb: Job, f: Frame, g: Frame, log: seq<L.Event>, p: Pool, t: Tid, m: nat,
                      jobs: nat, of: Option<Frame>, tf: Option<Frame>)
    requires JobOk(d, jb, of, tf) && Sees(jb, f, t, m, of, tf)
    requires f.pc == RetryCall && g == f.(pc := g.pc, ret := g.ret)
    requires (g.pc == RetryStarting && L.PhaseOf(log) == L.Starting(jb.epoch, L.PhaseOf(jb.log).last))
             || (g.pc == RetryCommit && g.ret == Ok && L.PhaseOf(log) == L.Up(jb.epoch))
    ensures ControlOk(d, jb.owner, t, m, f.job, jobs, Effect(Some(g), jb.(log := log), p), of, tf)
  {
    hide L.PhaseOf, GenerationOf;
  }

  lemma StartCallControl(d: JobDesc, jb: Job, f: Frame, p: Pool, t: Tid, m: nat, jobs: nat,
                      of: Option<Frame>, tf: Option<Frame>)
    requires JobOk(d, jb, of, tf) && Sees(jb, f, t, m, of, tf) && f.pc == StartCall
    ensures ControlOk(d, jb.owner, t, m, f.job, jobs, DoCall(d, jb, f, p, Starting, StartCommit), of, tf)
  {
    hide L.PhaseOf, GenerationOf;
    CallOpens(d, jb, f, p, Starting, StartCommit);
    var e := DoCall(d, jb, f, p, Starting, StartCommit);
    assert e == Effect(Some(e.frame.value), jb.(log := e.job.log), p);
    StartCalled(d, jb, f, e.frame.value, e.job.log, p, t, m, jobs, of, tf);
  }

  lemma RetryCallControl(d: JobDesc, jb: Job, f: Frame, p: Pool, t: Tid, m: nat, jobs: nat,
                      of: Option<Frame>, tf: Option<Frame>)
    requires JobOk(d, jb, of, tf) && Sees(jb, f, t, m, of, tf) && f.pc == RetryCall
    ensures ControlOk(d, jb.owner, t, m, f.job, jobs, DoCall(d, jb, f, p, RetryStarting, RetryCommit), of, tf)
  {
    hide L.PhaseOf, GenerationOf;
    CallOpens(d, jb, f, p, RetryStarting, RetryCommit);
    var e := DoCall(d, jb, f, p, RetryStarting, RetryCommit);
    assert e == Effect(Some(e.frame.value), jb.(log := e.job.log), p);
    RetryCalled(d, jb, f, e.frame.value, e.job.log, p, t, m, jobs, of, tf);
  }

  lemma StopFinishControl(d: JobDesc, jb: Job, f: Frame, p: Pool, t: Tid, m: nat, jobs: nat,
                      of: Option<Frame>, tf: Option<Frame>)
    requires JobOk(d, jb, of, tf) && Sees(jb, f, t, m, of, tf) && f.pc == StopFinish
    ensures ControlOk(d, jb.owner, t, m, f.job, jobs, DoStopFinish(jb, f, p, None), of, tf)
  {
    hide L.PhaseOf, GenerationOf;
  }

  lemma DeferFinishControl(d: JobDesc, jb: Job, f: Frame, p: Pool, t: Tid, m: nat, jobs: nat,
                      of: Option<Frame>, tf: Option<Frame>)
    requires JobOk(d, jb, of, tf) && Sees(jb, f, t, m, of, tf) && f.pc == DeferFinish
    ensures ControlOk(d, jb.owner, t, m, f.job, jobs, DoStopFinish(jb, f, p, NextJob(f, jobs)), of, tf)
  {
    hide L.PhaseOf, GenerationOf;
  }

  lemma TickRetryControl(d: JobDesc, jb: Job, f: Frame, p: Pool, t: Tid, m: nat, jobs: nat,
                      of: Option<Frame>, tf: Option<Frame>, c: Choice)
    requires JobOk(d, jb, of, tf) && Sees(jb, f, t, m, of, tf) && f.pc == TickRetry
    ensures ControlOk(d, jb.owner, t, m, f.job, jobs, DoTickRetry(d, jb, f, p, c), of, tf)
  {
    hide L.PhaseOf, GenerationOf;
  }

  lemma RetryClaimControl(d: JobDesc, jb: Job, f: Frame, p: Pool, t: Tid, m: nat, jobs: nat,
                      of: Option<Frame>, tf: Option<Frame>)
    requires JobOk(d, jb, of, tf) && Sees(jb, f, t, m, of, tf) && f.pc == RetryClaim
    ensures ControlOk(d, jb.owner, t, m, f.job, jobs, DoRetryClaim(jb, f, p, t, m), of, tf)
  {
    hide L.PhaseOf, GenerationOf;
  }

  lemma RetryStartingControl(d: JobDesc, jb: Job, f: Frame, p: Pool, t: Tid, m: nat, jobs: nat,
                      of: Option<Frame>, tf: Option<Frame>, c: Choice)
    requires JobOk(d, jb, of, tf) && Sees(jb, f, t, m, of, tf) && f.pc == RetryStarting
    ensures ControlOk(d, jb.owner, t, m, f.job, jobs, DoRetryReturns(jb, f, p, c), of, tf)
  {
    hide L.PhaseOf, GenerationOf;
    L.PhaseSnoc(jb.log, L.StartEnd(jb.epoch, c.ret == Ok));
  }

  lemma EnterEventControl(d: JobDesc, jb: Job, f: Frame, p: Pool, t: Tid, m: nat, jobs: nat,
                          of: Option<Frame>, tf: Option<Frame>)
    requires JobOk(d, jb, of, tf) && Sees(jb, f, t, m, of, tf) && f.pc == TickDispatch && Dispatchable(jb.rt, d)
    ensures ControlOk(d, jb.owner, t, m, f.job, jobs,
                      Effect(Some(f.(pc := CallEvent, generation := jb.rt.generation, epoch := jb.epoch)),
                             Logged(jb, L.Admit(jb.epoch)).(rt := EnterCallback(jb.rt, t)), p), of, tf)
  {
    hide L.PhaseOf, GenerationOf;
    L.PhaseSnoc(jb.log, L.Admit(jb.epoch));
  }

  lemma DispatchControl(d: JobDesc, jb: Job, f: Frame, p: Pool, t: Tid, m: nat, jobs: nat,
                      of: Option<Frame>, tf: Option<Frame>, c: Choice)
    requires JobOk(d, jb, of, tf) && Sees(jb, f, t, m, of, tf) && f.pc == TickDispatch
    ensures ControlOk(d, jb.owner, t, m, f.job, jobs, DoDispatch(d, jb, f, p, t, c, NextJob(f, jobs)), of, tf)
  {
    hide L.PhaseOf, GenerationOf;
    if Dispatchable(jb.rt, d) && c.due {
      EnterEventControl(d, jb, f, p, t, m, jobs, of, tf);
    }
  }

  lemma CallEventControl(d: JobDesc, jb: Job, f: Frame, p: Pool, t: Tid, m: nat, jobs: nat,
                      of: Option<Frame>, tf: Option<Frame>)
    requires JobOk(d, jb, of, tf) && Sees(jb, f, t, m, of, tf) && f.pc == CallEvent
    ensures ControlOk(d, jb.owner, t, m, f.job, jobs, DoCallEvent(jb, f, p), of, tf)
  {
    hide L.PhaseOf, GenerationOf;
    L.PhaseSnoc(jb.log, L.EventBegin(f.epoch));
  }

  lemma EventingControl(d: JobDesc, jb: Job, f: Frame, p: Pool, t: Tid, m: nat, jobs: nat,
                      of: Option<Frame>, tf: Option<Frame>)
    requires JobOk(d, jb, of, tf) && Sees(jb, f, t, m, of, tf) && f.pc == Eventing
    ensures ControlOk(d, jb.owner, t, m, f.job, jobs, DoEventReturns(jb, f, p), of, tf)
  {
    hide L.PhaseOf, GenerationOf;
    L.PhaseSnoc(jb.log, L.EventEnd(f.epoch));
  }

  lemma DeferredStopControl(d: JobDesc, jb: Job, f: Frame, p: Pool, t: Tid, m: nat, next: Option<Frame>,
                            k: nat, jobs: nat, tf: Option<Frame>)
    requires JobOk(d, jb, None, tf) && Sees(jb, f, t, m, None, tf) && f.pc == TickEnd && f.job == k
    requires jb.owner == Deferred
    ensures ControlOk(d, Deferred, t, m, k, jobs, DoTickEnd(d, jb, f, p, t, m, next), None, tf)
  {
    hide L.PhaseOf, GenerationOf;
  }

  lemma ReturnControl(d: JobDesc, jb: Job, f: Frame, p: Pool, t: Tid, m: nat, jobs: nat,
                      of: Option<Frame>, tf: Option<Frame>)
    requires JobOk(d, jb, of, tf) && Sees(jb, f, t, m, of, tf) && f.pc == TickEnd
    requires jb.owner != Deferred
    ensures ControlOk(d, jb.owner, t, m, f.job, jobs, DoTickEnd(d, jb, f, p, t, m, NextJob(f, jobs)), of, tf)
  {
    hide L.PhaseOf, GenerationOf;
    var dropped := DropCallback(jb.rt);
    assert !StopDue(dropped) && TakeDeferredStop(dropped) == dropped;
    if TickCredited(dropped, f.generation) {
      L.PhaseSnoc(jb.log, L.Credit(jb.epoch));
    }
  }

  lemma TickEndControl(d: JobDesc, jb: Job, f: Frame, p: Pool, t: Tid, m: nat, jobs: nat,
                      of: Option<Frame>, tf: Option<Frame>)
    requires JobOk(d, jb, of, tf) && Sees(jb, f, t, m, of, tf) && f.pc == TickEnd
    ensures ControlOk(d, jb.owner, t, m, f.job, jobs, DoTickEnd(d, jb, f, p, t, m, NextJob(f, jobs)), of, tf)
  {
    hide L.PhaseOf, GenerationOf;
    if jb.owner == Deferred {
      DeferredStopControl(d, jb, f, p, t, m, NextJob(f, jobs), f.job, jobs, tf);
    } else {
      ReturnControl(d, jb, f, p, t, m, jobs, of, tf);
    }
  }

  /** Claiming a slot: its incarnation stays live exactly if a stop callback will end it. */
  lemma ClaimSettles(d: JobDesc, jb: Job, tf: Option<Frame>)
    requires JobOk(d, jb, None, tf) && jb.owner == Nobody
    ensures var handling := tf.Some? && tf.value.pc in {CallEvent, Eventing};
      var ph := L.PhaseOf(RetireSilently(jb, d).log);
      && Settled(ph, handling, jb.rt.state == Running && d.HasStop(), jb.epoch, jb.epoch)
      && (tf.Some? ==> WatcherOk(jb, ph, tf.value))
  {
    hide L.PhaseOf, GenerationOf;
    L.PhaseSnoc(jb.log, L.Retire(jb.epoch));
  }

  lemma ClaimStartControl(d: JobDesc, jb: Job, f: Frame, p: Pool, t: Tid, m: nat, jobs: nat, tf: Option<Frame>)
    requires JobOk(d, jb, None, tf) && Sees(jb, f, t, m, None, tf) && f.pc == StartEnter
    requires !StartRefused(jb.rt, d, t)
    ensures ControlOk(d, jb.owner, t, m, f.job, jobs, DoStartEnter(d, jb, f, p, t, m), None, tf)
  {
    hide L.PhaseOf, GenerationOf;
    NextGenerationCounts(jb.epoch);
    ClaimSettles(d, jb, tf);
  }

  lemma StartEnterControl(d: JobDesc, jb: Job, f: Frame, p: Pool, t: Tid, m: nat, jobs: nat,
                      of: Option<Frame>, tf: Option<Frame>)
    requires JobOk(d, jb, of, tf) && Sees(jb, f, t, m, of, tf) && f.pc == StartEnter
    ensures ControlOk(d, jb.owner, t, m, f.job, jobs, DoStartEnter(d, jb, f, p, t, m), of, tf)
  {
    hide L.PhaseOf, GenerationOf;
    if !StartRefused(jb.rt, d, t) {
      ClaimStartControl(d, jb, f, p, t, m, jobs, tf);
    }
  }

  lemma StartReleaseControl(d: JobDesc, jb: Job, f: Frame, p: Pool, t: Tid, m: nat, jobs: nat,
                      of: Option<Frame>, tf: Option<Frame>)
    requires JobOk(d, jb, of, tf) && Sees(jb, f, t, m, of, tf) && f.pc == StartRelease
    ensures ControlOk(d, jb.owner, t, m, f.job, jobs, DoStartRelease(jb, f, p), of, tf)
  {
    hide L.PhaseOf, GenerationOf;
  }

  lemma StartQueueControl(d: JobDesc, jb: Job, f: Frame, p: Pool, t: Tid, m: nat, jobs: nat,
                      of: Option<Frame>, tf: Option<Frame>)
    requires JobOk(d, jb, of, tf) && Sees(jb, f, t, m, of, tf) && f.pc == StartQueue
    ensures ControlOk(d, jb.owner, t, m, f.job, jobs, DoStartQueue(jb, f, p), of, tf)
  {
    hide L.PhaseOf, GenerationOf;
  }

  lemma StartingControl(d: JobDesc, jb: Job, f: Frame, p: Pool, t: Tid, m: nat, jobs: nat,
                      of: Option<Frame>, tf: Option<Frame>, c: Choice)
    requires JobOk(d, jb, of, tf) && Sees(jb, f, t, m, of, tf) && f.pc == Starting
    ensures ControlOk(d, jb.owner, t, m, f.job, jobs, DoStartReturns(d, jb, f, p, t, m, c), of, tf)
  {
    hide L.PhaseOf, GenerationOf;
    L.PhaseSnoc(jb.log, L.StartEnd(jb.epoch, c.ret == Ok));
  }

  lemma StartCommitControl(d: JobDesc, jb: Job, f: Frame, p: Pool, t: Tid, m: nat, jobs: nat,
                      of: Option<Frame>, tf: Option<Frame>)
    requires JobOk(d, jb, of, tf) && Sees(jb, f, t, m, of, tf) && f.pc == StartCommit
    ensures ControlOk(d, jb.owner, t, m, f.job, jobs, DoStartCommit(jb, f, p), of, tf)
  {
    hide L.PhaseOf, GenerationOf;
  }

  lemma ClaimStopControl(d: JobDesc, jb: Job, f: Frame, p: Pool, t: Tid, m: nat, jobs: nat, tf: Option<Frame>)
    requires JobOk(d, jb, None, tf) && Sees(jb, f, t, m, None, tf) && f.pc == StopEnter
    requires jb.owner == Nobody && jb.rt.state == Running
    ensures ControlOk(d, jb.owner, t, m, f.job, jobs, DoStopEnter(d, jb, f, p, t, m), None, tf)
  {
    hide L.PhaseOf, GenerationOf;
    NextGenerationCounts(jb.epoch);
    ClaimSettles(d, jb, tf);
  }

  lemma StopEnterControl(d: JobDesc, jb: Job, f: Frame, p: Pool, t: Tid, m: nat, jobs: nat,
                      of: Option<Frame>, tf: Option<Frame>)
    requires JobOk(d, jb, of, tf) && Sees(jb, f, t, m, of, tf) && f.pc == StopEnter
    ensures ControlOk(d, jb.owner, t, m, f.job, jobs, DoStopEnter(d, jb, f, p, t, m), of, tf)
  {
    hide L.PhaseOf, GenerationOf;
    if jb.owner == Nobody && jb.rt.state == Running {
      ClaimStopControl(d, jb, f, p, t, m, jobs, tf);
    }
  }

  lemma StopFreeControl(d: JobDesc, jb: Job, f: Frame, q: Pool, t: Tid, m: nat, jobs: nat,
                      of: Option<Frame>, tf: Option<Frame>)
    requires JobOk(d, jb, of, tf) && Sees(jb, f, t, m, of, tf) && f.pc == StopFree
    ensures ControlOk(d, jb.owner, t, m, f.job, jobs, Effect(None, jb, q), of, tf)
  {
    hide L.PhaseOf, GenerationOf;
  }

  lemma RetryCommitControl(d: JobDesc, jb: Job, f: Frame, p: Pool, t: Tid, m: nat, jobs: nat,
                      of: Option<Frame>, tf: Option<Frame>)
    requires JobOk(d, jb, of, tf) && Sees(jb, f, t, m, of, tf) && f.pc == RetryCommit
    ensures ControlOk(d, jb.owner, t, m, f.job, jobs, DoRetryCommit(jb, f, p, t, m), of, tf)
  {
    hide L.PhaseOf, GenerationOf;
  }

  lemma RetryFreeControl(d: JobDesc, jb: Job, f: Frame, p: Pool, t: Tid, m: nat, jobs: nat,
                      of: Option<Frame>, tf: Option<Frame>)
    requires JobOk(d, jb, of, tf) && Sees(jb, f, t, m, of, tf) && f.pc == RetryFree
    ensures ControlOk(d, jb.owner, t, m, f.job, jobs, DoRetryFree(jb, f, p), of, tf)
  {
    hide L.PhaseOf, GenerationOf;
  }

  lemma PerformStartControl(d: JobDesc, jb: Job, f: Frame, p: Pool, t: Tid, m: nat, c: Choice, jobs: nat,
                     of: Option<Frame>, tf: Option<Frame>)
    requires JobOk(d, jb, of, tf) && Sees(jb, f, t, m, of, tf) && OfStart(f.pc)
    ensures ControlOk(d, jb.owner, t, m, f.job, jobs, PerformStart(d, jb, f, p, t, m, c), of, tf)
  {
    match f.pc
    case StartEnter => StartEnterControl(d, jb, f, p, t, m, jobs, of, tf);
    case StartWait => StartWaitControl(d, jb, f, p, t, m, jobs, of, tf);
    case StartCallStop => StartCallStopControl(d, jb, f, p, t, m, jobs, of, tf);
    case StartStopping => StartStoppingControl(d, jb, f, p, t, m, jobs, of, tf);
    case StartRelease => StartReleaseControl(d, jb, f, p, t, m, jobs, of, tf);
    case StartQueue => StartQueueControl(d, jb, f, p, t, m, jobs, of, tf);
    case StartCall => StartCallControl(d, jb, f, p, t, m, jobs, of, tf);
    case Starting => StartingControl(d, jb, f, p, t, m, jobs, of, tf, c);
    case StartCommit => StartCommitControl(d, jb, f, p, t, m, jobs, of, tf);
  }

  lemma PerformStopControl(d: JobDesc, jb: Job, f: Frame, p: Pool, t: Tid, m: nat, c: Choice, jobs: nat,
                     of: Option<Frame>, tf: Option<Frame>)
    requires JobOk(d, jb, of, tf) && Sees(jb, f, t, m, of, tf) && OfStop(f.pc)
    ensures ControlOk(d, jb.owner, t, m, f.job, jobs, PerformStop(d, jb, f, p, t, m), of, tf)
  {
    match f.pc
    case StopEnter => StopEnterControl(d, jb, f, p, t, m, jobs, of, tf);
    case StopFree => StopFreeControl(d, jb, f, Finish(p, f.taken, false), t, m, jobs, of, tf);
    case StopWait => StopWaitControl(d, jb, f, p, t, m, jobs, of, tf);
    case StopCallStop => StopCallStopControl(d, jb, f, p, t, m, jobs, of, tf);
    case StopStopping => StopStoppingControl(d, jb, f, p, t, m, jobs, of, tf);
    case StopFinish => StopFinishControl(d, jb, f, p, t, m, jobs, of, tf);
  }

  lemma PerformTickControl(d: JobDesc, jb: Job, f: Frame, p: Pool, t: Tid, m: nat, c: Choice, jobs: nat,
                     of: Option<Frame>, tf: Option<Frame>)
    requires JobOk(d, jb, of, tf) && Sees(jb, f, t, m, of, tf) && OfTick(f.pc)
    requires f.pc in {RetryCall, RetryStarting} ==> Read(p, f.seen) == p
    ensures ControlOk(d, jb.owner, t, m, f.job, jobs, PerformTick(d, jb, f, p, t, m, c, jobs), of, tf)
  {
    match f.pc
    case TickRetry => TickRetryControl(d, jb, f, p, t, m, jobs, of, tf, c);
    case RetryClaim => RetryClaimControl(d, jb, f, p, t, m, jobs, of, tf);
    case RetryCall => RetryCallControl(d, jb, f, p, t, m, jobs, of, tf);
    case RetryStarting => RetryStartingControl(d, jb, f, p, t, m, jobs, of, tf, c);
    case RetryCommit => RetryCommitControl(d, jb, f, p, t, m, jobs, of, tf);
    case RetryFree => RetryFreeControl(d, jb, f, p, t, m, jobs, of, tf);
    case TickDispatch => DispatchControl(d, jb, f, p, t, m, jobs, of, tf, c);
    case CallEvent => CallEventControl(d, jb, f, p, t, m, jobs, of, tf);
    case Eventing => EventingControl(d, jb, f, p, t, m, jobs, of, tf);
    case TickEnd => TickEndControl(d, jb, f, p, t, m, jobs, of, tf);
    case DeferCallStop => DeferCallStopControl(d, jb, f, p, t, m, jobs, of, tf);
    case DeferStopping => DeferStoppingControl(d, jb, f, p, t, m, jobs, of, tf);
    case DeferFinish => DeferFinishControl(d, jb, f, p, t, m, jobs, of, tf);
  }

  lemma PerformControl(d: JobDesc, jb: Job, f: Frame, p: Pool, t: Tid, m: nat, c: Choice, jobs: nat,
                       of: Option<Frame>, tf: Option<Frame>)
    requires JobOk(d, jb, of, tf) && Sees(jb, f, t, m, of, tf)
    requires f.pc in {RetryCall, RetryStarting} ==> Read(p, f.seen) == p
    ensures ControlOk(d, jb.owner, t, m, f.job, jobs, Perform(d, jb, f, p, t, m, c, jobs), of, tf)
  {
    if OfStart(f.pc) {
      PerformStartControl(d, jb, f, p, t, m, c, jobs, of, tf);
    } else if OfStop(f.pc) {
      PerformStopControl(d, jb, f, p, t, m, c, jobs, of, tf);
    } else {
      PerformTickControl(d, jb, f, p, t, m, c, jobs, of, tf);
    }
  }

  lemma StartMemory(d: JobDesc, jb: Job, f: Frame, p: Pool, t: Tid, m: nat, c: Choice,
                    of: Option<Frame>, tf: Option<Frame>)
    requires JobOk(d, jb, of, tf) && Sees(jb, f, t, m, of, tf) && OfStart(f.pc)
    requires PoolOk(p) && Custody(p, t, m, f.job, jb.rt.pending, Some(f)) && Free(p, c.alloc)
    ensures MemoryOk(p, t, m, f.job, PerformStart(d, jb, f, p, t, m, c))
  {
    var k, e := f.job, PerformStart(d, jb, f, p, t, m, c);
    if f.pc == StartRelease {
      FinishMemory(p, t, m, k, jb, f, false, e);
    } else if f.pc == StartEnter && StartRefused(jb.rt, d, t) {
      DiscardMemory(p, t, m, k, jb, f, e);
    } else if f.pc == StartEnter {
      TakeMemory(p, t, m, k, jb, f, e);
    } else if f.pc == StartQueue || (f.pc == StartCommit && f.offered.Some?) {
      EnqueueMemory(p, t, m, k, jb, f, e);
    } else if f.pc == Starting && c.ret == NoMemory && d.present && d.needsStack && c.alloc.Some? {
      AllocMemory(p, t, m, k, jb.rt.pending, c.alloc.value, e);
    } else {
      QuietMemory(p, t, m, k, jb, f, e);
    }
  }

  lemma StopMemory(d: JobDesc, jb: Job, f: Frame, p: Pool, t: Tid, m: nat,
                   of: Option<Frame>, tf: Option<Frame>)
    requires JobOk(d, jb, of, tf) && Sees(jb, f, t, m, of, tf) && OfStop(f.pc)
    requires PoolOk(p) && Custody(p, t, m, f.job, jb.rt.pending, Some(f))
    ensures MemoryOk(p, t, m, f.job, PerformStop(d, jb, f, p, t, m))
  {
    var k, e := f.job, PerformStop(d, jb, f, p, t, m);
    if f.pc == StopFree {
      FinishMemory(p, t, m, k, jb, f, false, e);
    } else if f.pc == StopEnter && !jb.rt.busy && jb.rt.state != Running {
      TakeMemory(p, t, m, k, jb, f, e);
    } else {
      QuietMemory(p, t, m, k, jb, f, e);
    }
  }

  lemma RetryMemory(d: JobDesc, jb: Job, f: Frame, p: Pool, t: Tid, m: nat,
                    of: Option<Frame>, tf: Option<Frame>)
    requires JobOk(d, jb, of, tf) && Sees(jb, f, t, m, of, tf)
    requires PoolOk(p) && Custody(p, t, m, f.job, jb.rt.pending, Some(f))
    ensures f.pc == RetryCommit ==> MemoryOk(p, t, m, f.job, DoRetryCommit(jb, f, p, t, m))
    ensures f.pc == RetryFree ==> MemoryOk(p, t, m, f.job, DoRetryFree(jb, f, p))
    ensures f.pc in {RetryCall, RetryStarting} ==> Read(p, f.seen) == p
  {
    var k := f.job;
    if f.pc == RetryFree {
      FinishMemory(p, t, m, k, jb, f, f.ret == Ok, DoRetryFree(jb, f, p));
    } else if f.pc == RetryCommit && f.ret != NoMemory {
      TakeMemory(p, t, m, k, jb, f, DoRetryCommit(jb, f, p, t, m));
    } else if f.pc == RetryCommit {
      QuietMemory(p, t, m, k, jb, f, DoRetryCommit(jb, f, p, t, m));
    }
  }

  lemma TickQuiet(d: JobDesc, jb: Job, f: Frame, p: Pool, t: Tid, m: nat, c: Choice, jobs: nat,
                  of: Option<Frame>, tf: Option<Frame>)
    requires JobOk(d, jb, of, tf) && Sees(jb, f, t, m, of, tf) && OfTick(f.pc)
    requires f.pc != RetryFree && f.pc != RetryCommit
    requires f.pc in {RetryCall, RetryStarting} ==> Read(p, f.seen) == p
    ensures var e := PerformTick(d, jb, f, p, t, m, c, jobs);
      && e.pool == p && e.job.rt.pending == jb.rt.pending
      && (e.frame.Some? ==> SameRecords(e.frame.value, f))
      && (e.frame.None? ==> f.offered == None && f.taken == None)
  {
    hide L.PhaseOf, GenerationOf;
  }

  lemma TickMemory(d: JobDesc, jb: Job, f: Frame, p: Pool, t: Tid, m: nat, c: Choice, jobs: nat,
                   of: Option<Frame>, tf: Option<Frame>)
    requires JobOk(d, jb, of, tf) && Sees(jb, f, t, m, of, tf) && OfTick(f.pc)
    requires PoolOk(p) && Custody(p, t, m, f.job, jb.rt.pending, Some(f))
    ensures MemoryOk(p, t, m, f.job, PerformTick(d, jb, f, p, t, m, c, jobs))
  {
    RetryMemory(d, jb, f, p, t, m, of, tf);
    if f.pc != RetryFree && f.pc != RetryCommit {
      TickQuiet(d, jb, f, p, t, m, c, jobs, of, tf);
      QuietMemory(p, t, m, f.job, jb, f, PerformTick(d, jb, f, p, t, m, c, jobs));
    }
  }

  lemma PerformMemory(d: JobDesc, jb: Job, f: Frame, p: Pool, t: Tid, m: nat, c: Choice, jobs: nat,
                      of: Option<Frame>, tf: Option<Frame>)
    requires JobOk(d, jb, of, tf) && Sees(jb, f, t, m, of, tf)
    requires PoolOk(p) && Custody(p, t, m, f.job, jb.rt.pending, Some(f)) && Free(p, c.alloc)
    ensures MemoryOk(p, t, m, f.job, Perform(d, jb, f, p, t, m, c, jobs))
  {
    if OfStart(f.pc) {
      StartMemory(d, jb, f, p, t, m, c, of, tf);
    } else if OfStop(f.pc) {
      StopMemory(d, jb, f, p, t, m, of, tf);
    } else {
      TickMemory(d, jb, f, p, t, m, c, jobs, of, tf);
    }
  }

  // ----- whole steps -----

  lemma PerformSound(ds: seq<JobDesc>, s: State, t: Tid, m: nat, c: Choice, e: Effect)
    requires Inv(ds, s) && HasFrame(s, t, m) && |s.threads[t]| == m + 1 && Free(s.pool, c.alloc)
    requires s.threads[t][m].job < |s.jobs|
    requires var f := s.threads[t][m];
      e == Perform(ds[f.job], s.jobs[f.job], f, s.pool, t, m, c, |s.jobs|)
    ensures var k := s.threads[t][m].job;
      && ControlOk(ds[k], s.jobs[k].owner, t, m, k, |s.jobs|, e, OwnerFrame(s, k), TickFrame(s, k))
      && MemoryOk(s.pool, t, m, k, e)
  {
    var f := s.threads[t][m];
    var d, jb, of, tf := ds[f.job], s.jobs[f.job], OwnerFrame(s, f.job), TickFrame(s, f.job);
    Unfold(ds, s, t, m);
    CustodyBefore(ds, s, t, m);
    RetryMemory(d, jb, f, s.pool, t, m, of, tf);
    PerformControl(d, jb, f, s.pool, t, m, c, |s.jobs|, of, tf);
    PerformMemory(d, jb, f, s.pool, t, m, c, |s.jobs|, of, tf);
  }

  lemma AdvanceKeeps(ds: seq<JobDesc>, s: State, t: Tid, c: Choice)
    requires Inv(ds, s) && t < |s.threads| && s.threads[t] != [] && Free(s.pool, c.alloc)
    ensures Step(ds, s, t, Advance(c)).Some? && Inv(ds, Step(ds, s, t, Advance(c)).value)
  {
    hide JobOk, Sees, ControlOk, MemoryOk, Perform, SlotOk, FrameOk, RecordOk, PoolOk, Put;
    var m := |s.threads[t]| - 1;
    var f := s.threads[t][m];
    Unfold(ds, s, t, m);
    var e := Perform(ds[f.job], s.jobs[f.job], f, s.pool, t, m, c, |s.jobs|);
    PerformSound(ds, s, t, m, c, e);
    FrameStep(ds, s, t, m, e);
  }

  /** A call pushes a frame that owns nothing yet, perhaps with a new record. */
  lemma CallMemory(ds: seq<JobDesc>, s: State, t: Tid, k: nat, e: Effect)
    requires Inv(ds, s) && t < |s.threads| && k < |s.jobs|
    requires e.job == s.jobs[k] && e.frame.Some? && e.frame.value.taken == None
    requires var r := e.frame.value.offered;
      if r.None? then e.pool == s.pool
      else r.value.addr !in s.pool.live && r.value.serial == s.pool.serials
           && e.pool == Alloc(s.pool, r.value.addr, InFrame(t, |s.threads[t]|))
    ensures MemoryOk(s.pool, t, |s.threads[t]|, k, e)
  {
    var m := |s.threads[t]|;
    assert SlotOk(ds, s, k);
    assert !HasFrame(s, t, m);
    forall a | a in s.pool.live
      ensures s.pool.live[a].holder != InFrame(t, m)
      ensures s.pool.live[a].holder == InSlot(k) ==> PointsAt(s.jobs[k].rt.pending, a)
    {
      assert RecordOk(s, a);
    }
    if e.frame.value.offered.Some? {
      AllocMemory(s.pool, t, m, k, s.jobs[k].rt.pending, e.frame.value.offered.value.addr, e);
    }
  }

  lemma CallKeeps(ds: seq<JobDesc>, s: State, t: Tid, k: nat, e: Effect)
    requires Inv(ds, s) && MayCall(s, t) && k < |s.jobs|
    requires e.job == s.jobs[k] && e.frame.Some?
    requires var f := e.frame.value;
      && f.job == k && f.pc in {StartEnter, StopEnter, TickRetry} && f.taken == None
      && (f.offered == None || f.pc == StartEnter)
      && (f.pc == TickRetry ==> t == TICKER && s.threads[t] == [])
    requires MemoryOk(s.pool, t, |s.threads[t]|, k, e)
    ensures Inv(ds, Put(s, t, |s.threads[t]|, k, e))
  {
    hide PoolOk, L.PhaseOf, GenerationOf;
    assert SlotOk(ds, s, k);
    assert !HasFrame(s, t, |s.threads[t]|);
    SoundStep(ds, s, t, |s.threads[t]|, k, e);
  }

  function Marked(jb: Job, err: Status): Job {
    var told := if jb.rt.state == Running then Logged(jb, L.Retire(jb.epoch)) else jb;
    told.(rt := MarkStopped(jb.rt, err))
  }

  lemma MarkControl(d: JobDesc, jb: Job, err: Status, of: Option<Frame>, tf: Option<Frame>)
    requires JobOk(d, jb, of, tf) && !jb.rt.busy
    ensures JobOk(d, Marked(jb, err), of, tf)
  {
    hide L.PhaseOf, GenerationOf;
    L.PhaseSnoc(jb.log, L.Retire(jb.epoch));
  }

  lemma MarkKeeps(ds: seq<JobDesc>, s: State, t: Tid, k: nat, g: nat, err: Status)
    requires Inv(ds, s) && k < |s.jobs| && MarkAccepted(s.jobs[k].rt, g)
    ensures var n := Step(ds, s, t, WorkerMarks(k, g, err)); n.Some? && Inv(ds, n.value)
  {
    var n := s.(jobs := s.jobs[k := Marked(s.jobs[k], err)]);
    assert Step(ds, s, t, WorkerMarks(k, g, err)) == Some(n);
    forall j | 0 <= j < |n.jobs|
      ensures SlotOk(ds, n, j)
    {
      assert SlotOk(ds, s, j);
      assert OwnerFrame(n, j) == OwnerFrame(s, j) && TickFrame(n, j) == TickFrame(s, j);
      if j == k {
        MarkControl(ds[k], s.jobs[k], err, OwnerFrame(s, k), TickFrame(s, k));
      }
    }
    forall u, d | HasFrame(n, u, d)
      ensures FrameOk(n, u, d)
    {
      assert FrameOk(s, u, d);
    }
    forall a | a in n.pool.live
      ensures RecordOk(n, a)
    {
      assert RecordOk(s, a);
    }
  }

  /** The invariant is inductive: whatever thread moves and whatever its callbacks do. */
  lemma StepKeeps(ds: seq<JobDesc>, s: State, t: Tid, a: Action)
    requires Inv(ds, s) && Step(ds, s, t, a).Some?
    ensures Inv(ds, Step(ds, s, t, a).value)
  {
    match a
    case Advance(c) => AdvanceKeeps(ds, s, t, c);
    case WorkerMarks(k, g, err) => MarkKeeps(ds, s, t, k, g, err);
    case CallStop(k) =>
      var e := Effect(Some(NewFrame(StopEnter, k, None)), s.jobs[k], s.pool);
      CallMemory(ds, s, t, k, e);
      CallKeeps(ds, s, t, k, e);
    case CallTick =>
      var e := Effect(Some(NewFrame(TickRetry, 0, None)), s.jobs[0], s.pool);
      CallMemory(ds, s, t, 0, e);
      CallKeeps(ds, s, t, 0, e);
    case CallStart(k, addr) =>
      var e := if addr.Some?
        then Effect(Some(NewFrame(StartEnter, k, Some(Ptr(addr.value, s.pool.serials)))), s.jobs[k],
                    Alloc(s.pool, addr.value, InFrame(t, |s.threads[t]|)))
        else Effect(Some(NewFrame(StartEnter, k, None)), s.jobs[k], s.pool);
      CallMemory(ds, s, t, k, e);
      CallKeeps(ds, s, t, k, e);
  }

  lemma InitKeeps(ds: seq<JobDesc>, threads: nat)
    requires threads > 0
    ensures Inv(ds, InitState(|ds|, threads))
  {
    var s := InitState(|ds|, threads);
    forall k | 0 <= k < |s.jobs|
      ensures SlotOk(ds, s, k)
    {
      assert s.jobs[k] == Job(InitRuntime(), Nobody, 0, []) && s.threads[TICKER] == [];
      assert L.PhaseOf([]) == L.Idle(0);
    }
    assert QueuedRecords(s.pool.live) == {};
  }

  /** Every state of every run satisfies the invariant. */
  lemma {:induction false} RunKeeps(ds: seq<JobDesc>, states: seq<State>, i: nat)
    requires Run(ds, states) && i < |states|
    ensures Inv(ds, states[i])
  {
    if i == 0 {
      var threads: nat :| threads > 0 && states[0] == InitState(|ds|, threads);
      InitKeeps(ds, threads);
    } else {
      RunKeeps(ds, states, i - 1);
      assert Moves(ds, states[i - 1], states[i - 1 + 1]);
      var t, a :| Step(ds, states[i - 1], t, a) == Some(states[i]);
      StepKeeps(ds, states[i - 1], t, a);
    }
  }
}
