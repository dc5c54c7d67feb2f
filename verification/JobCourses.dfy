/**
 What each operation of the job manager amounts to when its thread is not interrupted: the
 whole effect on the slot, on the job's log and on the queued records, from the call to the return.
 */
module JobCourses {
  import opened Wrappers
  import opened JobRuntimes
  import opened JobProtocol
  import opened JobInvariant
  import opened JobSteps
  import opened JobTheorems
  import opened JobOutcomes
  import L = JobLifecycle

  // ----- steps of one thread on one slot -----

  /** A schedule in which only thread t moves. */
  ghost predicate Undisturbed(ds: seq<JobDesc>, states: seq<State>, schedule: seq<(Tid, Action)>, t: Tid) {
    Follows(ds, states, schedule) && forall i :: 0 <= i < |schedule| ==> TakesTurn(schedule[i], t)
  }

  /** What the environment decided in step i. */
  function Chosen(schedule: seq<(Tid, Action)>, i: nat): Choice
    requires i < |schedule| && schedule[i].1.Advance?
  {
    schedule[i].1.choice
  }

  /** `s` is `base` but for slot k, the stack of thread t from depth m on, and the pool. */
  predicate Reached(base: State, s: State, t: Tid, m: nat, k: nat, e: Effect) {
    t < |base.threads| && m <= |base.threads[t]| && k < |base.jobs| && s == Put(base, t, m, k, e)
  }

  lemma Onward(ds: seq<JobDesc>, states: seq<State>, schedule: seq<(Tid, Action)>, i: nat,
               base: State, t: Tid, m: nat, k: nat, e: Effect)
    returns (n: Effect)
    requires Undisturbed(ds, states, schedule, t) && i < |schedule|
    requires Reached(base, states[i], t, m, k, e) && e.frame.Some? && e.frame.value.job == k < |ds|
    ensures schedule[i].1.Advance? && Free(e.pool, Chosen(schedule, i).alloc)
    ensures n == Perform(ds[k], e.job, e.frame.value, e.pool, t, m, Chosen(schedule, i), |ds|)
    ensures Reached(base, states[i + 1], t, m, k, n)
  {
    hide Perform;
    assert TakesTurn(schedule[i], t) && Step(ds, states[i], t, schedule[i].1) == Some(states[i + 1]);
    n := Perform(ds[k], e.job, e.frame.value, e.pool, t, m, Chosen(schedule, i), |ds|);
    PutAgain(base, t, m, k, e, n);
  }

  lemma PutAgain(base: State, t: Tid, m: nat, k: nat, e: Effect, n: Effect)
    requires t < |base.threads| && m <= |base.threads[t]| && k < |base.jobs|
    ensures var s := Put(base, t, m, k, e);
      && |s.threads| == |base.threads| && |s.jobs| == |base.jobs|
      && m <= |s.threads[t]| && s.threads[t][..m] == base.threads[t][..m]
      && |s.threads[t]| == m + |Opt(e.frame)| && s.jobs[k] == e.job && s.pool == e.pool
      && (e.frame.Some? ==> s.threads[t][m] == e.frame.value)
      && Put(s, t, m, k, n) == Put(base, t, m, k, n)
  {
  }

  /** A thread's state is where it begins. */
  lemma Begins(base: State, t: Tid, k: nat)
    requires t < |base.threads| && base.threads[t] != [] && Top(base, t).job == k < |base.jobs|
    ensures var m := |base.threads[t]| - 1;
      Reached(base, base, t, m, k, Effect(Some(Top(base, t)), base.jobs[k], base.pool))
  {
    var m := |base.threads[t]| - 1;
    assert base.threads[t] == base.threads[t][..m] + [Top(base, t)];
    assert base.jobs[k := base.jobs[k]] == base.jobs;
  }

  /** What was reached, thread by thread and slot by slot. */
  lemma Arrived(base: State, s: State, t: Tid, m: nat, k: nat, e: Effect)
    requires Reached(base, s, t, m, k, e)
    ensures s.jobs == base.jobs[k := e.job] && s.pool == e.pool
    ensures t < |s.threads| && s.threads == base.threads[t := s.threads[t]]
    ensures s.threads[t] == base.threads[t][..m] + Opt(e.frame)
    ensures e.frame.Some? ==> |s.threads[t]| == m + 1 && Top(s, t) == e.frame.value
    ensures e.frame.None? ==> s.threads[t] == base.threads[t][..m]
  {
  }

  /** Thread t has left the manager, or is back in the callback it called from. */
  predicate Returned(s: State, n: State, t: Tid)
    requires t < |s.threads| && s.threads[t] != []
  {
    n.threads == s.threads[t := s.threads[t][..|s.threads[t]| - 1]]
  }

  // ----- the retry of a queued start -----

  /** The record is freed and its wait ends, with the launch or without. */
  ghost predicate Released(p: Pool, q: Pool, r: Option<Ptr>, launched: bool) {
    if r.None? then q == p
    else
      && r.value.addr in p.live && p.waiting > 0
      && q == p.(live := p.live - {r.value.addr}, waiting := p.waiting - 1,
                 waitSuccesses := p.waitSuccesses + (if launched then 1 else 0),
                 waitCancellations := p.waitCancellations + (if launched then 0 else 1))
  }

  lemma FreesQueued(p: Pool, r: Option<Ptr>, h: Holder, to: Holder, launched: bool)
    requires PoolOk(p) && Held(p, r, h, true)
    ensures Released(p, Finish(Move(p, r, to), r, launched), r, launched)
  {
    if r.Some? {
      assert r.value.addr in QueuedRecords(p.live);
      assert p.live[r.value.addr := p.live[r.value.addr].(holder := to)] - {r.value.addr} == p.live - {r.value.addr};
    }
  }

  /** The slot of a waiting job after its start was retried and returned `ret`. */
  function Retried(jb: Job, ret: Status): Job {
    jb.(rt := jb.rt.(lastError := ret,
                     state := match ret case Ok => Running case NoMemory => Waiting case OtherError => Failed,
                     pending := if ret == NoMemory then jb.rt.pending else None),
        log := jb.log + [L.StartBegin(jb.epoch), L.StartEnd(jb.epoch, ret == Ok)])
  }

  lemma Observes(d: JobDesc, jb: Job, f: Frame, p: Pool, t: Tid, m: nat, c: Choice, jobs: nat)
    requires f.pc == TickRetry && c.admitted && d.present
    requires jb.rt.state == Waiting && !jb.rt.busy && jb.rt.pending.Some?
    ensures Perform(d, jb, f, p, t, m, c, jobs)
         == Effect(Some(f.(pc := RetryClaim, seen := jb.rt.pending.value, generation := jb.rt.generation,
                           epoch := jb.epoch)), jb, p)
  {
  }

  lemma Claims(d: JobDesc, jb: Job, f: Frame, p: Pool, t: Tid, m: nat, c: Choice, jobs: nat)
    requires f.pc == RetryClaim && f.generation == jb.rt.generation
    requires jb.rt.state == Waiting && !jb.rt.busy && jb.rt.pending == Some(f.seen)
    ensures Perform(d, jb, f, p, t, m, c, jobs)
         == Effect(Some(f.(pc := RetryCall)), jb.(rt := jb.rt.(busy := true), owner := Thread(t, m)), p)
  {
  }

  lemma Calls(d: JobDesc, jb: Job, f: Frame, p: Pool, t: Tid, m: nat, c: Choice, jobs: nat)
    requires f.pc == StartCall || (f.pc == RetryCall && Held(p, Some(f.seen), InSlot(f.job), true) && !p.fault)
    requires d.present
    ensures var inside := if f.pc == StartCall then Starting else RetryStarting;
      var after := if f.pc == StartCall then StartCommit else RetryCommit;
      Perform(d, jb, f, p, t, m, c, jobs)
      == if d.start then Effect(Some(f.(pc := inside)), jb.(log := jb.log + [L.StartBegin(jb.epoch)]), p)
         else Effect(Some(f.(pc := after, ret := Ok)),
                     jb.(log := jb.log + [L.StartBegin(jb.epoch), L.StartEnd(jb.epoch, true)]), p)
  {
    var log, e := jb.log, jb.epoch;
    assert log + [L.StartBegin(e)] + [L.StartEnd(e, true)] == log + [L.StartBegin(e), L.StartEnd(e, true)];
  }

  lemma RetryReturns(d: JobDesc, jb: Job, f: Frame, p: Pool, t: Tid, m: nat, c: Choice, jobs: nat,
                     log: seq<L.Event>)
    requires f.pc == RetryStarting && Held(p, Some(f.seen), InSlot(f.job), true) && !p.fault
    requires jb.log == log + [L.StartBegin(jb.epoch)]
    ensures Perform(d, jb, f, p, t, m, c, jobs)
         == Effect(Some(f.(pc := RetryCommit, ret := c.ret)),
                   jb.(log := log + [L.StartBegin(jb.epoch), L.StartEnd(jb.epoch, c.ret == Ok)]), p)
  {
    var e := jb.epoch;
    assert log + [L.StartBegin(e)] + [L.StartEnd(e, c.ret == Ok)]
        == log + [L.StartBegin(e), L.StartEnd(e, c.ret == Ok)];
  }

  lemma RetryCommits(d: JobDesc, jb: Job, f: Frame, p: Pool, t: Tid, m: nat, c: Choice, jobs: nat)
    requires f.pc == RetryCommit && f.generation == jb.rt.generation
    requires jb.rt.state == Waiting && jb.rt.busy && jb.rt.pending == Some(f.seen)
    ensures var e := Perform(d, jb, f, p, t, m, c, jobs);
      && e.job == jb.(owner := Nobody, rt := jb.rt.(busy := false, lastError := f.ret,
           state := match f.ret case Ok => Running case NoMemory => Waiting case OtherError => Failed,
           pending := if f.ret == NoMemory then jb.rt.pending else None))
      && (if f.ret == NoMemory then e.frame == Some(f.(pc := TickDispatch)) && e.pool == p
          else e.frame == Some(f.(pc := RetryFree, taken := Some(f.seen)))
               && e.pool == Move(p, Some(f.seen), InFrame(t, m)))
  {
    hide Move;
  }

  lemma RetryFrees(d: JobDesc, jb: Job, f: Frame, p: Pool, t: Tid, m: nat, c: Choice, jobs: nat)
    requires f.pc == RetryFree
    ensures Perform(d, jb, f, p, t, m, c, jobs)
         == Effect(Some(f.(pc := TickDispatch, taken := None)), jb, Finish(p, f.taken, f.ret == Ok))
  {
    hide Finish;
  }

  /** The first part of a retry, up to the return of the start callback. */
  lemma RetryUpToReturn(ds: seq<JobDesc>, states: seq<State>, schedule: seq<(Tid, Action)>, m: nat, k: nat)
    returns (n: nat, e: Effect)
    requires Undisturbed(ds, states, schedule, TICKER) && Inv(ds, states[0]) && |schedule| >= 6
    requires TopAt(states[0], TICKER, TickRetry, k) && k < |ds| && m == |states[0].threads[TICKER]| - 1
    requires var jb := states[0].jobs[k];
      jb.rt.state == Waiting && !jb.rt.busy && jb.rt.pending.Some? && ds[k].present
    requires schedule[0].1.Advance? && Chosen(schedule, 0).admitted
    ensures n == (if ds[k].start then 4 else 3) && schedule[3].1.Advance?
    ensures Reached(states[0], states[n], TICKER, m, k, e)
    ensures var jb := states[0].jobs[k]; var ret := if ds[k].start then Chosen(schedule, 3).ret else Ok;
      && e.pool == states[0].pool
      && e.job == jb.(rt := jb.rt.(busy := true), owner := Thread(TICKER, m),
                      log := jb.log + [L.StartBegin(jb.epoch), L.StartEnd(jb.epoch, ret == Ok)])
      && e.frame.Some? && e.frame.value.pc == RetryCommit && e.frame.value.job == k
      && e.frame.value.generation == jb.rt.generation && Some(e.frame.value.seen) == jb.rt.pending
      && e.frame.value.ret == ret
  {
    hide Perform, Inv, JobOk;
    var s := states[0];
    var f, jb, d, p := Top(s, TICKER), s.jobs[k], ds[k], s.pool;
    Unfold(ds, s, TICKER, m);
    PoolFacts(ds, s);
    Begins(s, TICKER, k);
    e := Effect(Some(f), jb, p);
    Observes(d, jb, f, p, TICKER, m, Chosen(schedule, 0), |ds|);
    e := Onward(ds, states, schedule, 0, s, TICKER, m, k, e);
    e := Onward(ds, states, schedule, 1, s, TICKER, m, k, e);
    Claims(d, jb, f.(pc := RetryClaim, seen := jb.rt.pending.value, generation := jb.rt.generation, epoch := jb.epoch),
           p, TICKER, m, Chosen(schedule, 1), |ds|);
    var called := e;
    e := Onward(ds, states, schedule, 2, s, TICKER, m, k, e);
    Calls(d, called.job, called.frame.value, p, TICKER, m, Chosen(schedule, 2), |ds|);
    var inside := e;
    n := 3;
    assert TakesTurn(schedule[3], TICKER);
    if d.start {
      e := Onward(ds, states, schedule, 3, s, TICKER, m, k, e);
      RetryReturns(d, inside.job, inside.frame.value, p, TICKER, m, Chosen(schedule, 3), |ds|, jb.log);
      n := 4;
    }
  }

  lemma PoolFacts(ds: seq<JobDesc>, s: State)
    requires Inv(ds, s)
    ensures PoolOk(s.pool) && !s.pool.fault && |s.jobs| == |ds|
  {
  }

  /**
   A queued start is retried: when the ticker comes to a job that waits and memory is free again, then, if no
   other thread steps in, the start callback is called with the queued record. The job runs if it returned OK
   and has failed if it returned an error; its record is freed then. If there was no memory after all, the job
   waits on with the same record. Nothing else changes, and the tick goes on to the job's event.
   */
  lemma QueuedStartsAreRetried(ds: seq<JobDesc>, states: seq<State>, schedule: seq<(Tid, Action)>, k: nat)
    returns (n: nat)
    requires Undisturbed(ds, states, schedule, TICKER) && Inv(ds, states[0]) && |schedule| >= 6
    requires TopAt(states[0], TICKER, TickRetry, k) && k < |ds|
    requires var rt := states[0].jobs[k].rt;
      rt.state == Waiting && !rt.busy && rt.pending.Some? && ds[k].present
    requires schedule[0].1.Advance? && Chosen(schedule, 0).admitted
    ensures n <= 6 && schedule[3].1.Advance?
    ensures TopAt(states[n], TICKER, TickDispatch, k) && |states[n].threads[TICKER]| == |states[0].threads[TICKER]|
    ensures var ret := if ds[k].start then Chosen(schedule, 3).ret else Ok;
      && states[n].jobs == states[0].jobs[k := Retried(states[0].jobs[k], ret)]
      && (if ret == NoMemory then states[n].pool == states[0].pool
          else Released(states[0].pool, states[n].pool, states[0].jobs[k].rt.pending, ret == Ok))
    ensures states[n].threads == states[0].threads[TICKER := states[n].threads[TICKER]]
  {
    hide Perform, Inv, JobOk, Released, Put, Reached, Retried;
    assert |states| == |schedule| + 1 && |states[0].jobs| == |ds|;
    hide Undisturbed;
    var m := |states[0].threads[TICKER]| - 1;
    var e;
    n, e := RetryUpToReturn(ds, states, schedule, m, k);
    n, e := RetryFromReturn(ds, states, schedule, m, k, n, e);
    Arrived(states[0], states[n], TICKER, m, k, e);
  }

  /** The second part: the commit, and the record's end. */
  lemma RetryFromReturn(ds: seq<JobDesc>, states: seq<State>, schedule: seq<(Tid, Action)>, m: nat, k: nat,
                        i: nat, returned: Effect)
    returns (n: nat, e: Effect)
    requires Undisturbed(ds, states, schedule, TICKER) && Inv(ds, states[0]) && i + 2 <= |schedule| && k < |ds|
    requires k < |states[0].jobs| && !states[0].jobs[k].rt.busy && states[0].jobs[k].rt.state == Waiting
    requires Reached(states[0], states[i], TICKER, m, k, returned)
    requires var jb, f := states[0].jobs[k], returned.frame;
      && returned.pool == states[0].pool
      && f.Some? && f.value.pc == RetryCommit && f.value.job == k
      && f.value.generation == jb.rt.generation && Some(f.value.seen) == jb.rt.pending
      && returned.job == jb.(rt := jb.rt.(busy := true), owner := Thread(TICKER, m),
                             log := jb.log + [L.StartBegin(jb.epoch), L.StartEnd(jb.epoch, f.value.ret == Ok)])
    ensures var ret := returned.frame.value.ret;
      && n == i + (if ret == NoMemory then 1 else 2)
      && Reached(states[0], states[n], TICKER, m, k, e)
      && e.frame.Some? && e.frame.value.pc == TickDispatch && e.frame.value.job == k
      && e.job == Retried(states[0].jobs[k], ret)
      && (if ret == NoMemory then e.pool == states[0].pool
          else Released(states[0].pool, e.pool, states[0].jobs[k].rt.pending, ret == Ok))
  {
    hide Perform, Inv, JobOk, Released, Move, Finish, Put, Reached;
    var s := states[0];
    SlotFreed(ds, s, k);
    RetryCommits(ds[k], returned.job, returned.frame.value, s.pool, TICKER, m, Chosen(schedule, i), |ds|);
    e := Onward(ds, states, schedule, i, s, TICKER, m, k, returned);
    n := i + 1;
    var f := returned.frame.value;
    if f.ret != NoMemory {
      RetryFrees(ds[k], e.job, e.frame.value, e.pool, TICKER, m, Chosen(schedule, n), |ds|);
      e := Onward(ds, states, schedule, n, s, TICKER, m, k, e);
      FreesQueued(s.pool, s.jobs[k].rt.pending, InSlot(k), InFrame(TICKER, m), f.ret == Ok);
      n := n + 1;
    }
  }

  /** Nobody owns a slot that is not busy, and its record is queued. */
  lemma SlotFreed(ds: seq<JobDesc>, s: State, k: nat)
    requires Inv(ds, s) && k < |ds|
    ensures k < |s.jobs| == |ds| && PoolOk(s.pool) && Held(s.pool, s.jobs[k].rt.pending, InSlot(k), true)
    ensures s.jobs[k].rt.generation == GenerationOf(s.jobs[k].epoch)
    ensures !s.jobs[k].rt.busy ==> s.jobs[k].owner == Nobody && !s.jobs[k].rt.stopAfterCallback
  {
    hide L.PhaseOf, GenerationOf;
    assert SlotOk(ds, s, k);
  }

  /** A job that does not wait, or for which there is no memory, is left as it is. */
  lemma NothingIsRetriedOtherwise(ds: seq<JobDesc>, states: seq<State>, schedule: seq<(Tid, Action)>, k: nat)
    requires Undisturbed(ds, states, schedule, TICKER) && Inv(ds, states[0]) && |schedule| >= 1
    requires TopAt(states[0], TICKER, TickRetry, k) && k < |ds| && schedule[0].1.Advance?
    requires var rt := states[0].jobs[k].rt;
      rt.state != Waiting || rt.busy || rt.pending == None || !ds[k].present || !Chosen(schedule, 0).admitted
    ensures TopAt(states[1], TICKER, TickDispatch, k) && |states[1].threads[TICKER]| == |states[0].threads[TICKER]|
    ensures states[1].jobs == states[0].jobs && states[1].pool == states[0].pool
    ensures states[1].threads == states[0].threads[TICKER := states[1].threads[TICKER]]
  {
    hide Inv, JobOk;
    var s, m := states[0], |states[0].threads[TICKER]| - 1;
    Unfold(ds, s, TICKER, m);
    Begins(s, TICKER, k);
    var e := Effect(Some(Top(s, TICKER)), s.jobs[k], s.pool);
    e := Onward(ds, states, schedule, 0, s, TICKER, m, k, e);
    assert s.jobs[k := s.jobs[k]] == s.jobs;
  }

  // ----- a start -----

  /** How the incarnation a call takes down ends: with its stop callback, if it has one. */
  function Ended(jb: Job, d: JobDesc): seq<L.Event> {
    if jb.rt.state != Running then []
    else if d.present && d.stop then [L.StopBegin(jb.epoch), L.StopEnd(jb.epoch)]
    else [L.Retire(jb.epoch)]
  }

  /** How many steps that takes. */
  function StepsToEnd(jb: Job, d: JobDesc): nat {
    if jb.rt.state == Running && d.present && d.stop then 2 else 0
  }

  lemma Enters(d: JobDesc, jb: Job, f: Frame, p: Pool, t: Tid, m: nat, c: Choice, jobs: nat)
    requires f.pc == StartEnter && d.present && !jb.rt.busy && jb.rt.callbackRefs == 0
    requires jb.rt.generation == GenerationOf(jb.epoch) && f.job < jobs
    ensures var rt, stops := jb.rt, jb.rt.state == Running && d.stop;
      Perform(d, jb, f, p, t, m, c, jobs)
      == Effect(Some(f.(pc := StartWait, generation := GenerationOf(jb.epoch + 1), taken := rt.pending,
                        callStop := stops)),
                Job(rt.(busy := true, pending := None, generation := GenerationOf(jb.epoch + 1), state := Stopped),
                    Thread(t, m), jb.epoch + 1,
                    if rt.state == Running && !d.stop then jb.log + [L.Retire(jb.epoch)] else jb.log),
                Move(p, rt.pending, InFrame(t, m)))
  {
    hide Move;
    NextGenerationCounts(jb.epoch);
  }

  lemma Waits(d: JobDesc, jb: Job, f: Frame, p: Pool, t: Tid, m: nat, c: Choice, jobs: nat)
    requires f.pc in {StartWait, StopWait} && jb.rt.callbackRefs == 0
    ensures var calls := if f.pc == StartWait then StartCallStop else StopCallStop;
      var after := if f.pc == StartWait then StartRelease else StopFinish;
      Perform(d, jb, f, p, t, m, c, jobs) == Effect(Some(f.(pc := if f.callStop then calls else after)), jb, p)
  {
  }

  lemma CallsStop(d: JobDesc, jb: Job, f: Frame, p: Pool, t: Tid, m: nat, c: Choice, jobs: nat)
    requires f.pc in {StartCallStop, StopCallStop, DeferCallStop} && jb.epoch > 0
    ensures var inside := match f.pc case StartCallStop => StartStopping case StopCallStop => StopStopping
                                     case _ => DeferStopping;
      Perform(d, jb, f, p, t, m, c, jobs)
      == Effect(Some(f.(pc := inside)), jb.(log := jb.log + [L.StopBegin(jb.epoch - 1)]), p)
  {
  }

  lemma StopReturns(d: JobDesc, jb: Job, f: Frame, p: Pool, t: Tid, m: nat, c: Choice, jobs: nat, log: seq<L.Event>)
    requires f.pc in {StartStopping, StopStopping, DeferStopping} && jb.epoch > 0
    requires jb.log == log + [L.StopBegin(jb.epoch - 1)]
    ensures var after := match f.pc case StartStopping => StartRelease case StopStopping => StopFinish
                                    case _ => DeferFinish;
      Perform(d, jb, f, p, t, m, c, jobs)
      == Effect(Some(f.(pc := after)),
                jb.(log := log + [L.StopBegin(jb.epoch - 1), L.StopEnd(jb.epoch - 1)]), p)
  {
    var e := jb.epoch - 1;
    assert log + [L.StopBegin(e)] + [L.StopEnd(e)] == log + [L.StopBegin(e), L.StopEnd(e)];
  }

  /** Into the stop callback and out of it. */
  lemma RunsStop(ds: seq<JobDesc>, states: seq<State>, schedule: seq<(Tid, Action)>, i: nat,
                 base: State, t: Tid, m: nat, k: nat, e: Effect)
    returns (n: Effect)
    requires Undisturbed(ds, states, schedule, t) && i + 2 <= |schedule| && k < |ds|
    requires Reached(base, states[i], t, m, k, e) && e.frame.Some? && e.frame.value.job == k
    requires e.frame.value.pc in {StartCallStop, StopCallStop, DeferCallStop} && e.job.epoch > 0
    ensures Reached(base, states[i + 2], t, m, k, n)
    ensures var f, ended := e.frame.value, e.job.epoch - 1;
      n == Effect(Some(f.(pc := match f.pc case StartCallStop => StartRelease case StopCallStop => StopFinish
                                           case _ => DeferFinish)),
                  e.job.(log := e.job.log + [L.StopBegin(ended), L.StopEnd(ended)]), e.pool)
  {
    hide Perform, Reached, Undisturbed;
    StepsThere(ds, states, schedule, t);
    CallsStop(ds[k], e.job, e.frame.value, e.pool, t, m, Chosen(schedule, i), |ds|);
    n := Onward(ds, states, schedule, i, base, t, m, k, e);
    StopReturns(ds[k], n.job, n.frame.value, n.pool, t, m, Chosen(schedule, i + 1), |ds|, e.job.log);
    n := Onward(ds, states, schedule, i + 1, base, t, m, k, n);
  }

  lemma StepsThere(ds: seq<JobDesc>, states: seq<State>, schedule: seq<(Tid, Action)>, t: Tid)
    requires Undisturbed(ds, states, schedule, t)
    ensures |states| == |schedule| + 1 && (forall i :: 0 <= i < |states| ==> |states[i].jobs| == |ds|)
    ensures forall i :: 0 <= i < |schedule| ==> schedule[i].1.Advance?
  {
    forall i | 0 <= i < |schedule|
      ensures schedule[i].1.Advance?
    {
      assert TakesTurn(schedule[i], t);
    }
  }

  /** From a wait loop that is left at once past the stop callback. */
  lemma EndsTheOldOne(ds: seq<JobDesc>, states: seq<State>, schedule: seq<(Tid, Action)>, i: nat,
                      base: State, t: Tid, m: nat, k: nat, e: Effect)
    returns (n: Effect)
    requires Undisturbed(ds, states, schedule, t) && i < |schedule| && k < |ds|
    requires Reached(base, states[i], t, m, k, e) && e.frame.Some? && e.frame.value.job == k
    requires i + 1 + (if e.frame.value.callStop then 2 else 0) <= |schedule|
    requires e.frame.value.pc in {StartWait, StopWait} && e.job.rt.callbackRefs == 0 && e.job.epoch > 0
    ensures var f := e.frame.value; var ended := e.job.epoch - 1;
      && Reached(base, states[i + 1 + if f.callStop then 2 else 0], t, m, k, n)
      && n == Effect(Some(f.(pc := if f.pc == StartWait then StartRelease else StopFinish)),
                     e.job.(log := e.job.log + if f.callStop then [L.StopBegin(ended), L.StopEnd(ended)] else []),
                     e.pool)
  {
    hide Perform, Reached, Undisturbed;
    StepsThere(ds, states, schedule, t);
    Waits(ds[k], e.job, e.frame.value, e.pool, t, m, Chosen(schedule, i), |ds|);
    n := Onward(ds, states, schedule, i, base, t, m, k, e);
    if e.frame.value.callStop {
      n := RunsStop(ds, states, schedule, i + 1, base, t, m, k, n);
    } else {
      assert e.job.log + [] == e.job.log;
    }
  }

  lemma Releases(d: JobDesc, jb: Job, f: Frame, p: Pool, t: Tid, m: nat, c: Choice, jobs: nat)
    requires f.pc == StartRelease
    ensures Perform(d, jb, f, p, t, m, c, jobs)
         == Effect(Some(f.(pc := if f.offered.Some? then StartQueue else StartCall, taken := None)), jb,
                   Finish(p, f.taken, false))
  {
    hide Finish;
  }

  /** The slot once a start has taken it over and has ended what was there. */
  function TakenOver(jb: Job, d: JobDesc, t: Tid, m: nat): Job {
    Job(Runtime(Stopped, jb.rt.lastError, GenerationOf(jb.epoch + 1), jb.rt.tickCount, 0, None, false, true, None),
        Thread(t, m), jb.epoch + 1, jb.log + Ended(jb, d))
  }

  lemma NoEventInFlight(ds: seq<JobDesc>, s: State, k: nat)
    requires Inv(ds, s) && k < |s.jobs| && s.jobs[k].rt.callbackRefs == 0
    ensures s.jobs[k].rt.callbackTask == None
  {
    hide L.PhaseOf, GenerationOf;
    assert SlotOk(ds, s, k);
  }

  /** A start up to where the slot is cleared and the record that was queued is freed. */
  lemma StartTakesOver(ds: seq<JobDesc>, states: seq<State>, schedule: seq<(Tid, Action)>, t: Tid, m: nat, k: nat)
    returns (n: nat, e: Effect)
    requires Undisturbed(ds, states, schedule, t) && Inv(ds, states[0])
    requires TopAt(states[0], t, StartEnter, k) && k < |ds| && m == |states[0].threads[t]| - 1
    requires var rt := states[0].jobs[k].rt;
      !rt.busy && ds[k].present && rt.callbackRefs == 0
    requires |schedule| >= 3 + StepsToEnd(states[0].jobs[k], ds[k])
    ensures n == 3 + StepsToEnd(states[0].jobs[k], ds[k])
    ensures Reached(states[0], states[n], t, m, k, e)
    ensures var s, jb := states[0], states[0].jobs[k]; var f := Top(s, t);
      && e.frame.Some? && e.frame.value.pc == (if f.offered.Some? then StartQueue else StartCall)
      && e.frame.value.job == k && e.frame.value.offered == f.offered
      && e.frame.value.generation == GenerationOf(jb.epoch + 1)
      && e.job == TakenOver(jb, ds[k], t, m) && Released(s.pool, e.pool, jb.rt.pending, false)
  {
    hide Perform, Inv, JobOk, Released, Move, Finish, Put, Reached;
    var s := states[0];
    var jb, f, d := s.jobs[k], Top(s, t), ds[k];
    SlotFreed(ds, s, k);
    NoEventInFlight(ds, s, k);
    Begins(s, t, k);
    e := Onward(ds, states, schedule, 0, s, t, m, k, Effect(Some(f), jb, s.pool));
    Enters(d, jb, f, s.pool, t, m, Chosen(schedule, 0), |ds|);
    e := EndsTheOldOne(ds, states, schedule, 1, s, t, m, k, e);
    n := 2 + StepsToEnd(jb, d);
    assert e.job == TakenOver(jb, d, t, m);
    var frees := e;
    e := Onward(ds, states, schedule, n, s, t, m, k, e);
    Releases(d, frees.job, frees.frame.value, frees.pool, t, m, Chosen(schedule, n), |ds|);
    n := n + 1;
    FreesQueued(s.pool, jb.rt.pending, InSlot(k), InFrame(t, m), false);
  }

  /** The record is queued for slot k, and counted; `isNew` if it was allocated on the way. */
  ghost predicate Queued(p: Pool, q: Pool, r: Ptr, k: nat, isNew: bool) {
    q == p.(live := p.live[r.addr := Record(r.serial, InSlot(k), true)], waiting := p.waiting + 1,
            queuedStarts := p.queuedStarts + 1, serials := p.serials + if isNew then 1 else 0)
  }

  lemma Queues(d: JobDesc, jb: Job, f: Frame, p: Pool, t: Tid, m: nat, c: Choice, jobs: nat)
    requires f.pc == StartQueue || f.pc == StartCommit
    requires jb.rt.busy && jb.rt.generation == f.generation
    requires f.offered.Some? && f.offered.value.addr in p.live
    requires p.live[f.offered.value.addr].serial == f.offered.value.serial
    ensures var e := Perform(d, jb, f, p, t, m, c, jobs);
      && e.frame == None && Queued(p, e.pool, f.offered.value, f.job, false)
      && e.job == jb.(owner := Nobody, rt := jb.rt.(state := Waiting, lastError := Ok, tickCount := 0, busy := false,
                                                    pending := f.offered))
  {
  }

  lemma Commits(d: JobDesc, jb: Job, f: Frame, p: Pool, t: Tid, m: nat, c: Choice, jobs: nat)
    requires f.pc == StartCommit && jb.rt.busy && jb.rt.generation == f.generation && f.offered == None
    ensures Perform(d, jb, f, p, t, m, c, jobs)
         == Effect(None, jb.(owner := Nobody, rt := jb.rt.(state := if f.ret == Ok then Running else Failed,
                                                           lastError := f.ret, tickCount := 0, busy := false)), p)
  {
  }

  lemma StartReturns(d: JobDesc, jb: Job, f: Frame, p: Pool, t: Tid, m: nat, c: Choice, jobs: nat, log: seq<L.Event>)
    requires f.pc == Starting && jb.log == log + [L.StartBegin(jb.epoch)] && f.offered == None
    ensures var e := Perform(d, jb, f, p, t, m, c, jobs); var r := Requeued(d, c, p.serials);
      && e.frame == Some(f.(pc := StartCommit, ret := c.ret, offered := r))
      && e.job == jb.(log := log + [L.StartBegin(jb.epoch), L.StartEnd(jb.epoch, c.ret == Ok)])
      && e.pool == if r.Some? then Alloc(p, r.value.addr, InFrame(t, m)) else p
  {
    hide Alloc;
    var e := jb.epoch;
    assert log + [L.StartBegin(e)] + [L.StartEnd(e, c.ret == Ok)]
        == log + [L.StartBegin(e), L.StartEnd(e, c.ret == Ok)];
  }

  lemma Queueing(p: Pool, q: Pool, r: Ptr, h: Holder, k: nat)
    requires Queued(Alloc(p, r.addr, h), q, r, k, false) && r.serial == p.serials
    ensures Queued(p, q, r, k, true)
  {
  }

  /** The slot of a job after a start whose callback returned `ret`, or that waits with the record `kept`. */
  function Started(jb: Job, d: JobDesc, ret: Status, kept: Option<Ptr>, called: bool): Job {
    var e := jb.epoch + 1;
    Job(Runtime(if kept.Some? then Waiting else if ret == Ok then Running else Failed,
                if kept.Some? then Ok else ret, GenerationOf(e), 0, 0, None, false, false, kept),
        Nobody, e,
        jb.log + Ended(jb, d) + if called then [L.StartBegin(e), L.StartEnd(e, ret == Ok)] else [])
  }

  /**
   A start for which there is no memory waits: what ran before is stopped, a record queued before is freed and
   counted as cancelled, and the new record is queued; the start callback is not called.
   */
  lemma StartsWithoutMemoryWait(ds: seq<JobDesc>, states: seq<State>, schedule: seq<(Tid, Action)>, t: Tid, k: nat)
    returns (n: nat, q: Pool)
    requires Undisturbed(ds, states, schedule, t) && Inv(ds, states[0])
    requires TopAt(states[0], t, StartEnter, k) && k < |ds| && Top(states[0], t).offered.Some?
    requires var rt := states[0].jobs[k].rt;
      !rt.busy && ds[k].present && rt.callbackRefs == 0
    requires |schedule| >= 4 + StepsToEnd(states[0].jobs[k], ds[k])
    ensures n == 4 + StepsToEnd(states[0].jobs[k], ds[k])
    ensures Returned(states[0], states[n], t)
    ensures var jb, offered := states[0].jobs[k], Top(states[0], t).offered;
      && states[n].jobs == states[0].jobs[k := Started(jb, ds[k], Ok, offered, false)]
      && Released(states[0].pool, q, jb.rt.pending, false) && Queued(q, states[n].pool, offered.value, k, false)
  {
    hide Perform, Inv, JobOk, Put, Reached, Queued;
    assert |states| == |schedule| + 1 && |states[0].jobs| == |ds|;
    hide Undisturbed;
    var s, m := states[0], |states[0].threads[t]| - 1;
    var e;
    n, e := StartTakesOver(ds, states, schedule, t, m, k);
    q := e.pool;
    OfferedIsSafe(ds, s, t, k, q);
    Queues(ds[k], e.job, e.frame.value, q, t, m, Chosen(schedule, n), |ds|);
    e := Onward(ds, states, schedule, n, s, t, m, k, e);
    n := n + 1;
    assert s.jobs[k].log + Ended(s.jobs[k], ds[k]) + [] == s.jobs[k].log + Ended(s.jobs[k], ds[k]);
    Arrived(s, states[n], t, m, k, e);
  }

  /** The record a start offers is not the one it frees. */
  lemma OfferedIsSafe(ds: seq<JobDesc>, s: State, t: Tid, k: nat, q: Pool)
    requires Inv(ds, s) && TopAt(s, t, StartEnter, k) && k < |s.jobs| && Top(s, t).offered.Some?
    requires Released(s.pool, q, s.jobs[k].rt.pending, false)
    ensures var r := Top(s, t).offered.value;
      r.addr in q.live && q.live[r.addr].serial == r.serial
  {
    hide JobOk;
    Unfold(ds, s, t, |s.threads[t]| - 1);
  }

  /**
   A start with memory, or of a job that needs no stack: what ran before is stopped, a queued record is freed and
   counted as cancelled, and the start callback is called. The job runs if it returned OK. If it found no memory
   for the job's stack and a record could be had, the job waits with that record; else it has failed.
   */
  lemma StartsCallBack(ds: seq<JobDesc>, states: seq<State>, schedule: seq<(Tid, Action)>, t: Tid, k: nat)
    returns (n: nat, q: Pool)
    requires Undisturbed(ds, states, schedule, t) && Inv(ds, states[0])
    requires TopAt(states[0], t, StartEnter, k) && k < |ds| && Top(states[0], t).offered == None
    requires var rt := states[0].jobs[k].rt;
      !rt.busy && ds[k].present && rt.callbackRefs == 0
    requires |schedule| >= 5 + StepsToEnd(states[0].jobs[k], ds[k]) + if ds[k].start then 1 else 0
    ensures n == 5 + StepsToEnd(states[0].jobs[k], ds[k]) + if ds[k].start then 1 else 0
    ensures Returned(states[0], states[n], t)
    ensures var jb, d, at := states[0].jobs[k], ds[k], 4 + StepsToEnd(states[0].jobs[k], ds[k]);
      && schedule[at].1.Advance?
      && var c := Chosen(schedule, at);
         var ret := if d.start then c.ret else Ok;
         var kept := if d.start then Requeued(d, c, states[0].pool.serials) else None;
         && states[n].jobs == states[0].jobs[k := Started(jb, d, ret, kept, true)]
         && Released(states[0].pool, q, jb.rt.pending, false)
         && (if kept.Some? then Queued(q, states[n].pool, kept.value, k, true) else states[n].pool == q)
  {
    hide Perform, Inv, JobOk, Put, Reached, Queued;
    assert |states| == |schedule| + 1 && |states[0].jobs| == |ds|;
    var s, m := states[0], |states[0].threads[t]| - 1;
    var e;
    n, e := StartTakesOver(ds, states, schedule, t, m, k);
    q := e.pool;
    assert TakesTurn(schedule[n + 1], t);
    n, e := StartCallsAndCommits(ds, states, schedule, n, s, t, m, k, e);
    var jb := s.jobs[k];
    assert jb.log + Ended(jb, ds[k]) + [] == jb.log + Ended(jb, ds[k]);
    Arrived(s, states[n], t, m, k, e);
  }

  lemma StartCallsAndCommits(ds: seq<JobDesc>, states: seq<State>, schedule: seq<(Tid, Action)>, i: nat,
                             base: State, t: Tid, m: nat, k: nat, called: Effect)
    returns (n: nat, e: Effect)
    requires Undisturbed(ds, states, schedule, t) && k < |ds| && ds[k].present
    requires i + (if ds[k].start then 3 else 2) <= |schedule|
    requires Reached(base, states[i], t, m, k, called) && schedule[i + 1].1.Advance?
    requires called.frame.Some? && called.frame.value.pc == StartCall && called.frame.value.job == k
    requires called.frame.value.offered == None
    requires called.job.rt.busy && called.job.rt.generation == called.frame.value.generation
    requires called.job.rt.pending == None
    ensures n == i + if ds[k].start then 3 else 2
    ensures Reached(base, states[n], t, m, k, e) && e.frame == None
    ensures var jb, c := called.job, Chosen(schedule, i + 1);
      var ret := if ds[k].start then c.ret else Ok;
      var kept := if ds[k].start then Requeued(ds[k], c, called.pool.serials) else None;
      && e.job == jb.(owner := Nobody, log := jb.log + [L.StartBegin(jb.epoch), L.StartEnd(jb.epoch, ret == Ok)],
                      rt := jb.rt.(busy := false, tickCount := 0, pending := kept,
                                   state := if kept.Some? then Waiting else if ret == Ok then Running else Failed,
                                   lastError := if kept.Some? then Ok else ret))
      && (if kept.Some? then Queued(called.pool, e.pool, kept.value, k, true) else e.pool == called.pool)
  {
    hide Perform, Put, Reached, Queued;
    var jb, p := called.job, called.pool;
    Calls(ds[k], jb, called.frame.value, p, t, m, Chosen(schedule, i), |ds|);
    e := Onward(ds, states, schedule, i, base, t, m, k, called);
    n := i + 1;
    if ds[k].start {
      StartReturns(ds[k], e.job, e.frame.value, p, t, m, Chosen(schedule, n), |ds|, jb.log);
      e := Onward(ds, states, schedule, n, base, t, m, k, e);
      n := n + 1;
    }
    if e.frame.value.offered.Some? {
      var r := e.frame.value.offered.value;
      Queues(ds[k], e.job, e.frame.value, e.pool, t, m, Chosen(schedule, n), |ds|);
      e := Onward(ds, states, schedule, n, base, t, m, k, e);
      Queueing(p, e.pool, r, InFrame(t, m), k);
    } else {
      Commits(ds[k], e.job, e.frame.value, e.pool, t, m, Chosen(schedule, n), |ds|);
      e := Onward(ds, states, schedule, n, base, t, m, k, e);
    }
    n := n + 1;
  }

  /** A start of a busy slot, of an unknown job, or from the job's own event callback is refused. */
  lemma StartsAreRefused(ds: seq<JobDesc>, states: seq<State>, schedule: seq<(Tid, Action)>, t: Tid, k: nat)
    requires Undisturbed(ds, states, schedule, t) && Inv(ds, states[0]) && |schedule| >= 1
    requires TopAt(states[0], t, StartEnter, k) && k < |ds|
    requires var rt := states[0].jobs[k].rt;
      rt.busy || !ds[k].present || (rt.callbackRefs > 0 && rt.callbackTask == Some(t))
    ensures states[1].jobs == states[0].jobs && Returned(states[0], states[1], t)
    ensures var p, r := states[0].pool, Top(states[0], t).offered;
      states[1].pool == if r.Some? then p.(live := p.live - {r.value.addr}) else p
  {
    hide Inv, JobOk;
    var s, m := states[0], |states[0].threads[t]| - 1;
    Unfold(ds, s, t, m);
    PoolFacts(ds, s);
    Begins(s, t, k);
    var e := Onward(ds, states, schedule, 0, s, t, m, k, Effect(Some(Top(s, t)), s.jobs[k], s.pool));
    assert s.jobs[k := s.jobs[k]] == s.jobs;
    Arrived(s, states[1], t, m, k, e);
  }

  // ----- a stop -----

  lemma StopEnters(d: JobDesc, jb: Job, f: Frame, p: Pool, t: Tid, m: nat, c: Choice, jobs: nat)
    requires f.pc == StopEnter && !jb.rt.busy && jb.rt.generation == GenerationOf(jb.epoch)
    ensures var rt, own := jb.rt, jb.rt.callbackRefs > 0 && jb.rt.callbackTask == Some(t);
      var log := if rt.state == Running && !(d.present && d.stop) then jb.log + [L.Retire(jb.epoch)] else jb.log;
      Perform(d, jb, f, p, t, m, c, jobs)
      == if rt.state != Running
         then Effect(Some(f.(pc := StopFree, taken := rt.pending)),
                     jb.(rt := rt.(pending := None, state := Stopped)), Move(p, rt.pending, InFrame(t, m)))
         else Effect(if own then None
                     else Some(f.(pc := StopWait, generation := GenerationOf(jb.epoch + 1),
                                  callStop := d.present && d.stop)),
                     Job(rt.(busy := true, stopAfterCallback := own, generation := GenerationOf(jb.epoch + 1),
                             state := Stopped),
                         if own then Deferred else Thread(t, m), jb.epoch + 1, log),
                     p)
  {
    hide Move;
    NextGenerationCounts(jb.epoch);
  }

  lemma StopFinishes(d: JobDesc, jb: Job, f: Frame, p: Pool, t: Tid, m: nat, c: Choice, jobs: nat)
    requires f.pc in {StopFinish, DeferFinish} && jb.rt.busy && jb.rt.generation == f.generation
    ensures Perform(d, jb, f, p, t, m, c, jobs)
         == Effect(if f.pc == StopFinish then None else NextJob(f, jobs),
                   jb.(owner := Nobody, rt := jb.rt.(lastError := Ok, busy := false)), p)
  {
  }

  lemma StopFrees(d: JobDesc, jb: Job, f: Frame, p: Pool, t: Tid, m: nat, c: Choice, jobs: nat)
    requires f.pc == StopFree
    ensures Perform(d, jb, f, p, t, m, c, jobs) == Effect(None, jb, Finish(p, f.taken, false))
  {
    hide Finish;
  }

  /** The slot of a running job after it was stopped. */
  function Ceased(jb: Job, d: JobDesc): Job {
    Job(Runtime(Stopped, Ok, GenerationOf(jb.epoch + 1), jb.rt.tickCount, 0, None, false, false, jb.rt.pending),
        Nobody, jb.epoch + 1, jb.log + Ended(jb, d))
  }

  /** A stop of a running job ends it, with its stop callback if it has one, and clears its error. */
  lemma StopsEndTheJob(ds: seq<JobDesc>, states: seq<State>, schedule: seq<(Tid, Action)>, t: Tid, k: nat)
    returns (n: nat)
    requires Undisturbed(ds, states, schedule, t) && Inv(ds, states[0])
    requires TopAt(states[0], t, StopEnter, k) && k < |ds|
    requires var rt := states[0].jobs[k].rt;
      !rt.busy && rt.state == Running && rt.callbackRefs == 0
    requires |schedule| >= 3 + StepsToEnd(states[0].jobs[k], ds[k])
    ensures n == 3 + StepsToEnd(states[0].jobs[k], ds[k])
    ensures Returned(states[0], states[n], t) && states[n].pool == states[0].pool
    ensures states[n].jobs == states[0].jobs[k := Ceased(states[0].jobs[k], ds[k])]
  {
    hide Perform, Inv, JobOk, Put, Reached;
    assert |states| == |schedule| + 1 && |states[0].jobs| == |ds|;
    var s, m := states[0], |states[0].threads[t]| - 1;
    SlotFreed(ds, s, k);
    NoEventInFlight(ds, s, k);
    Begins(s, t, k);
    StopEnters(ds[k], s.jobs[k], Top(s, t), s.pool, t, m, Chosen(schedule, 0), |ds|);
    var e := Onward(ds, states, schedule, 0, s, t, m, k, Effect(Some(Top(s, t)), s.jobs[k], s.pool));
    e := EndsTheOldOne(ds, states, schedule, 1, s, t, m, k, e);
    n := 2 + StepsToEnd(s.jobs[k], ds[k]);
    StopFinishes(ds[k], e.job, e.frame.value, e.pool, t, m, Chosen(schedule, n), |ds|);
    e := Onward(ds, states, schedule, n, s, t, m, k, e);
    n := n + 1;
    assert e.job == Ceased(s.jobs[k], ds[k]);
    Arrived(s, states[n], t, m, k, e);
  }

  /** A stop of a job that does not run makes it stopped and cancels a queued start; its last error stays. */
  lemma StopsCancel(ds: seq<JobDesc>, states: seq<State>, schedule: seq<(Tid, Action)>, t: Tid, k: nat)
    requires Undisturbed(ds, states, schedule, t) && Inv(ds, states[0]) && |schedule| >= 2
    requires TopAt(states[0], t, StopEnter, k) && k < |ds|
    requires !states[0].jobs[k].rt.busy && states[0].jobs[k].rt.state != Running
    ensures Returned(states[0], states[2], t)
    ensures Released(states[0].pool, states[2].pool, states[0].jobs[k].rt.pending, false)
    ensures var jb := states[0].jobs[k];
      states[2].jobs == states[0].jobs[k := jb.(rt := jb.rt.(state := Stopped, pending := None))]
  {
    hide Perform, Inv, JobOk, Put, Reached, Released, Move, Finish;
    assert |states| == |schedule| + 1 && |states[0].jobs| == |ds|;
    var s, m := states[0], |states[0].threads[t]| - 1;
    SlotFreed(ds, s, k);
    Begins(s, t, k);
    StopEnters(ds[k], s.jobs[k], Top(s, t), s.pool, t, m, Chosen(schedule, 0), |ds|);
    var e := Onward(ds, states, schedule, 0, s, t, m, k, Effect(Some(Top(s, t)), s.jobs[k], s.pool));
    StopFrees(ds[k], e.job, e.frame.value, e.pool, t, m, Chosen(schedule, 1), |ds|);
    e := Onward(ds, states, schedule, 1, s, t, m, k, e);
    FreesQueued(s.pool, s.jobs[k].rt.pending, InSlot(k), InFrame(t, m), false);
    Arrived(s, states[2], t, m, k, e);
  }

  /** A stop of a busy slot is refused. */
  lemma StopsAreRefused(ds: seq<JobDesc>, states: seq<State>, schedule: seq<(Tid, Action)>, t: Tid, k: nat)
    requires Undisturbed(ds, states, schedule, t) && Inv(ds, states[0]) && |schedule| >= 1
    requires TopAt(states[0], t, StopEnter, k) && k < |ds| && states[0].jobs[k].rt.busy
    ensures states[1].jobs == states[0].jobs && states[1].pool == states[0].pool && Returned(states[0], states[1], t)
  {
    hide Inv, JobOk;
    var s, m := states[0], |states[0].threads[t]| - 1;
    PoolFacts(ds, s);
    Begins(s, t, k);
    var e := Onward(ds, states, schedule, 0, s, t, m, k, Effect(Some(Top(s, t)), s.jobs[k], s.pool));
    assert s.jobs[k := s.jobs[k]] == s.jobs;
    Arrived(s, states[1], t, m, k, e);
  }

  // ----- an event -----

  /** The tick is done with slot k: it comes to the next job, or ends with the last. */
  predicate TickGoesOn(s: State, n: State, k: nat) {
    && |s.threads| == |n.threads| > 0 && n.threads == s.threads[TICKER := n.threads[TICKER]]
    && (if k + 1 < |s.jobs| then TopAt(n, TICKER, TickRetry, k + 1) && |n.threads[TICKER]| == 1
        else n.threads[TICKER] == [])
  }

  lemma GoesOn(s: State, n: State, k: nat, f: Option<Frame>)
    requires |n.threads| == |s.threads| > 0
    requires n.threads == s.threads[TICKER := n.threads[TICKER]]
    requires f.None? <==> k + 1 >= |s.jobs|
    requires f.Some? ==> f.value == NewFrame(TickRetry, k + 1, None)
    requires n.threads[TICKER] == Opt(f)
    ensures TickGoesOn(s, n, k)
  {
  }

  lemma Admits(d: JobDesc, jb: Job, f: Frame, p: Pool, t: Tid, m: nat, c: Choice, jobs: nat)
    requires f.pc == TickDispatch && jb.rt.callbackRefs == 0
    ensures Perform(d, jb, f, p, t, m, c, jobs)
         == if jb.rt.state == Running && !jb.rt.busy && d.present && d.event && c.due
            then Effect(Some(f.(pc := CallEvent, generation := jb.rt.generation, epoch := jb.epoch)),
                        jb.(log := jb.log + [L.Admit(jb.epoch)],
                            rt := jb.rt.(callbackRefs := 1, callbackTask := Some(t))),
                        p)
            else Effect(NextJob(f, jobs), jb, p)
  {
  }

  lemma CallsEvent(d: JobDesc, jb: Job, f: Frame, p: Pool, t: Tid, m: nat, c: Choice, jobs: nat, log: seq<L.Event>)
    requires f.pc in {CallEvent, Eventing}
    requires jb.log == log + if f.pc == CallEvent then [L.Admit(f.epoch)] else [L.Admit(f.epoch), L.EventBegin(f.epoch)]
    ensures var more := [L.Admit(f.epoch), L.EventBegin(f.epoch)]
                        + if f.pc == CallEvent then [] else [L.EventEnd(f.epoch)];
      Perform(d, jb, f, p, t, m, c, jobs)
      == Effect(Some(f.(pc := if f.pc == CallEvent then Eventing else TickEnd)), jb.(log := log + more), p)
  {
  }

  lemma Credits(d: JobDesc, jb: Job, f: Frame, p: Pool, t: Tid, m: nat, c: Choice, jobs: nat)
    requires f.pc == TickEnd && jb.rt.callbackRefs == 1 && jb.rt.state == Running && !jb.rt.busy
    requires jb.rt.generation == f.generation
    ensures Perform(d, jb, f, p, t, m, c, jobs)
         == Effect(NextJob(f, jobs),
                   jb.(log := jb.log + [L.Credit(jb.epoch)],
                       rt := jb.rt.(callbackRefs := 0, callbackTask := None, tickCount := jb.rt.tickCount + 1)), p)
  {
  }

  /** The slot of a job after it has handled an event. */
  function Handled(jb: Job): Job {
    var e := jb.epoch;
    jb.(log := jb.log + [L.Admit(e), L.EventBegin(e), L.EventEnd(e), L.Credit(e)],
        rt := jb.rt.(tickCount := jb.rt.tickCount + 1))
  }

  /** A running job that has an event callback and is due handles the tick, which is counted. */
  lemma DueJobsHandleTheTick(ds: seq<JobDesc>, states: seq<State>, schedule: seq<(Tid, Action)>, k: nat)
    requires Undisturbed(ds, states, schedule, TICKER) && Inv(ds, states[0]) && |schedule| >= 4
    requires TopAt(states[0], TICKER, TickDispatch, k) && k < |ds|
    requires schedule[0].1.Advance? && Chosen(schedule, 0).due && ds[k].present && ds[k].event
    requires states[0].jobs[k].rt.state == Running && !states[0].jobs[k].rt.busy
    ensures states[4].jobs == states[0].jobs[k := Handled(states[0].jobs[k])]
    ensures states[4].pool == states[0].pool && TickGoesOn(states[0], states[4], k)
  {
    hide Perform, Inv, JobOk, Put, Reached;
    assert |states| == |schedule| + 1 && |states[0].jobs| == |ds|;
    var s, m := states[0], |states[0].threads[TICKER]| - 1;
    var jb := s.jobs[k];
    TickerFacts(ds, s, k);
    Begins(s, TICKER, k);
    Admits(ds[k], jb, Top(s, TICKER), s.pool, TICKER, m, Chosen(schedule, 0), |ds|);
    var e := Onward(ds, states, schedule, 0, s, TICKER, m, k, Effect(Some(Top(s, TICKER)), jb, s.pool));
    CallsEvent(ds[k], e.job, e.frame.value, s.pool, TICKER, m, Chosen(schedule, 1), |ds|, jb.log);
    e := Onward(ds, states, schedule, 1, s, TICKER, m, k, e);
    CallsEvent(ds[k], e.job, e.frame.value, s.pool, TICKER, m, Chosen(schedule, 2), |ds|, jb.log);
    e := Onward(ds, states, schedule, 2, s, TICKER, m, k, e);
    Credits(ds[k], e.job, e.frame.value, s.pool, TICKER, m, Chosen(schedule, 3), |ds|);
    e := Onward(ds, states, schedule, 3, s, TICKER, m, k, e);
    assert e.job == Handled(jb);
    Arrived(s, states[4], TICKER, m, k, e);
  }

  lemma TickerFacts(ds: seq<JobDesc>, s: State, k: nat)
    requires Inv(ds, s) && TopAt(s, TICKER, TickDispatch, k) && k < |ds|
    ensures |s.threads[TICKER]| == 1 && k < |s.jobs| == |ds|
    ensures s.jobs[k].rt.callbackRefs == 0 && s.jobs[k].rt.callbackTask == None
  {
    hide L.PhaseOf, GenerationOf;
    Unfold(ds, s, TICKER, |s.threads[TICKER]| - 1);
  }

  /** Any other job is passed over. */
  lemma OthersArePassedOver(ds: seq<JobDesc>, states: seq<State>, schedule: seq<(Tid, Action)>, k: nat)
    requires Undisturbed(ds, states, schedule, TICKER) && Inv(ds, states[0]) && |schedule| >= 1
    requires TopAt(states[0], TICKER, TickDispatch, k) && k < |ds| && schedule[0].1.Advance?
    requires !Chosen(schedule, 0).due || !ds[k].present || !ds[k].event
             || states[0].jobs[k].rt.state != Running || states[0].jobs[k].rt.busy
    ensures states[1].jobs == states[0].jobs && states[1].pool == states[0].pool
    ensures TickGoesOn(states[0], states[1], k)
  {
    hide Perform, Inv, JobOk;
    var s, m := states[0], |states[0].threads[TICKER]| - 1;
    TickerFacts(ds, s, k);
    Begins(s, TICKER, k);
    Admits(ds[k], s.jobs[k], Top(s, TICKER), s.pool, TICKER, m, Chosen(schedule, 0), |ds|);
    var e := Onward(ds, states, schedule, 0, s, TICKER, m, k, Effect(Some(Top(s, TICKER)), s.jobs[k], s.pool));
    assert s.jobs[k := s.jobs[k]] == s.jobs;
    Arrived(s, states[1], TICKER, m, k, e);
  }

  lemma ReturnFacts(ds: seq<JobDesc>, s: State, k: nat)
    requires Inv(ds, s) && TopAt(s, TICKER, TickEnd, k) && k < |ds|
    ensures |s.threads[TICKER]| == 1 && k < |s.jobs| == |ds|
    ensures var rt := s.jobs[k].rt;
      && rt.callbackRefs == 1 && (rt.state == Running ==> rt.generation == Top(s, TICKER).generation)
      && (rt.stopAfterCallback ==> rt.busy && rt.state == Stopped)
  {
    hide L.PhaseOf;
    Unfold(ds, s, TICKER, |s.threads[TICKER]| - 1);
  }

  lemma Returns(d: JobDesc, jb: Job, f: Frame, p: Pool, t: Tid, m: nat, c: Choice, jobs: nat)
    requires f.pc == TickEnd && jb.rt.callbackRefs == 1 && !jb.rt.stopAfterCallback
    requires jb.rt.state == Running ==> jb.rt.generation == f.generation
    ensures var runs := jb.rt.state == Running;
      Perform(d, jb, f, p, t, m, c, jobs)
      == Effect(NextJob(f, jobs),
                jb.(log := jb.log + (if runs then [L.Credit(jb.epoch)] else []),
                    rt := jb.rt.(callbackRefs := 0, callbackTask := None,
                                 tickCount := jb.rt.tickCount + if runs then 1 else 0)), p)
  {
    assert jb.log + [] == jb.log;
  }

  /**
   When an event callback has returned and no stop waits for it, the tick is counted if the job still runs, and
   nothing else of the slot changes, whatever other threads did in the meantime.
   */
  lemma TicksAreCounted(ds: seq<JobDesc>, states: seq<State>, schedule: seq<(Tid, Action)>, k: nat)
    requires Undisturbed(ds, states, schedule, TICKER) && Inv(ds, states[0]) && |schedule| >= 1
    requires TopAt(states[0], TICKER, TickEnd, k) && k < |ds| && !states[0].jobs[k].rt.stopAfterCallback
    ensures var jb, runs := states[0].jobs[k], states[0].jobs[k].rt.state == Running;
      states[1].jobs == states[0].jobs[k :=
        jb.(log := jb.log + (if runs then [L.Credit(jb.epoch)] else []),
            rt := jb.rt.(callbackRefs := 0, callbackTask := None,
                         tickCount := jb.rt.tickCount + if runs then 1 else 0))]
    ensures states[1].pool == states[0].pool && TickGoesOn(states[0], states[1], k)
  {
    hide Inv, JobOk, Perform, TickGoesOn;
    var s, m := states[0], |states[0].threads[TICKER]| - 1;
    ReturnFacts(ds, s, k);
    Begins(s, TICKER, k);
    Returns(ds[k], s.jobs[k], Top(s, TICKER), s.pool, TICKER, m, Chosen(schedule, 0), |ds|);
    var e := Onward(ds, states, schedule, 0, s, TICKER, m, k, Effect(Some(Top(s, TICKER)), s.jobs[k], s.pool));
    Arrived(s, states[1], TICKER, m, k, e);
    GoesOn(s, states[1], k, e.frame);
  }

  // ----- a stop from the job's own event callback -----

  /** It takes the job down but leaves the stop callback to the return of the event. */
  lemma OwnStopsAreDeferred(ds: seq<JobDesc>, states: seq<State>, schedule: seq<(Tid, Action)>, k: nat)
    requires Undisturbed(ds, states, schedule, TICKER) && Inv(ds, states[0]) && |schedule| >= 1
    requires TopAt(states[0], TICKER, StopEnter, k) && k < |ds|
    requires var rt := states[0].jobs[k].rt;
      !rt.busy && rt.state == Running && rt.callbackRefs > 0
    ensures Returned(states[0], states[1], TICKER) && states[1].pool == states[0].pool
    ensures var jb, stops := states[0].jobs[k], ds[k].present && ds[k].stop;
      states[1].jobs == states[0].jobs[k :=
        Job(jb.rt.(state := Stopped, busy := true, stopAfterCallback := true, generation := GenerationOf(jb.epoch + 1)),
            Deferred, jb.epoch + 1, jb.log + if stops then [] else [L.Retire(jb.epoch)])]
  {
    hide Perform, Inv, JobOk;
    var s, m := states[0], |states[0].threads[TICKER]| - 1;
    SlotFreed(ds, s, k);
    EventsAreTheTickers(ds, s, k);
    Begins(s, TICKER, k);
    StopEnters(ds[k], s.jobs[k], Top(s, TICKER), s.pool, TICKER, m, Chosen(schedule, 0), |ds|);
    var e := Onward(ds, states, schedule, 0, s, TICKER, m, k, Effect(Some(Top(s, TICKER)), s.jobs[k], s.pool));
    assert s.jobs[k].log + [] == s.jobs[k].log;
    Arrived(s, states[1], TICKER, m, k, e);
  }

  lemma EventsAreTheTickers(ds: seq<JobDesc>, s: State, k: nat)
    requires Inv(ds, s) && k < |s.jobs| && s.jobs[k].rt.callbackRefs > 0
    ensures s.jobs[k].rt.callbackTask == Some(TICKER)
  {
    hide L.PhaseOf, GenerationOf;
    assert SlotOk(ds, s, k);
  }

  lemma EndsDeferred(d: JobDesc, jb: Job, f: Frame, p: Pool, t: Tid, m: nat, c: Choice, jobs: nat)
    requires f.pc == TickEnd && jb.rt.callbackRefs == 1 && jb.rt.stopAfterCallback && jb.rt.busy
    requires jb.rt.state == Stopped
    ensures Perform(d, jb, f, p, t, m, c, jobs)
         == Effect(Some(f.(pc := if d.present && d.stop then DeferCallStop else DeferFinish,
                           generation := jb.rt.generation, callStop := d.present && d.stop)),
                   jb.(owner := Thread(t, m),
                       rt := jb.rt.(callbackRefs := 0, callbackTask := None, stopAfterCallback := false)), p)
  {
  }

  /** The slot after a deferred stop. */
  function Completed(jb: Job, d: JobDesc): Job {
    Job(Runtime(Stopped, Ok, jb.rt.generation, jb.rt.tickCount, 0, None, false, false, jb.rt.pending), Nobody, jb.epoch,
        jb.log + if d.present && d.stop && jb.epoch > 0 then [L.StopBegin(jb.epoch - 1), L.StopEnd(jb.epoch - 1)]
                 else [])
  }

  /**
   When the event callback that asked for it has returned, a deferred stop is completed: the stop callback is
   called, the error cleared and the slot free again. The tick is not counted.
   */
  lemma DeferredStopsAreCompleted(ds: seq<JobDesc>, states: seq<State>, schedule: seq<(Tid, Action)>, k: nat)
    returns (n: nat)
    requires Undisturbed(ds, states, schedule, TICKER) && Inv(ds, states[0])
    requires TopAt(states[0], TICKER, TickEnd, k) && k < |ds| && states[0].jobs[k].rt.stopAfterCallback
    requires |schedule| >= 2 + if ds[k].present && ds[k].stop then 2 else 0
    ensures n == 2 + if ds[k].present && ds[k].stop then 2 else 0
    ensures states[n].jobs == states[0].jobs[k := Completed(states[0].jobs[k], ds[k])]
    ensures states[n].pool == states[0].pool && TickGoesOn(states[0], states[n], k)
  {
    hide Perform, Inv, JobOk, Put, Reached;
    assert |states| == |schedule| + 1 && |states[0].jobs| == |ds|;
    hide Undisturbed, TickGoesOn;
    var s, m := states[0], |states[0].threads[TICKER]| - 1;
    var jb, d := s.jobs[k], ds[k];
    ReturnFacts(ds, s, k);
    DeferredFacts(ds, s, k);
    Begins(s, TICKER, k);
    EndsDeferred(d, jb, Top(s, TICKER), s.pool, TICKER, m, Chosen(schedule, 0), |ds|);
    var e := Onward(ds, states, schedule, 0, s, TICKER, m, k, Effect(Some(Top(s, TICKER)), jb, s.pool));
    n := 1;
    if d.present && d.stop {
      e := RunsStop(ds, states, schedule, 1, s, TICKER, m, k, e);
      n := 3;
    }
    StopFinishes(d, e.job, e.frame.value, s.pool, TICKER, m, Chosen(schedule, n), |ds|);
    e := Onward(ds, states, schedule, n, s, TICKER, m, k, e);
    n := n + 1;
    assert e.job == Completed(jb, d);
    Arrived(s, states[n], TICKER, m, k, e);
    GoesOn(s, states[n], k, e.frame);
  }

  lemma DeferredFacts(ds: seq<JobDesc>, s: State, k: nat)
    requires Inv(ds, s) && k < |s.jobs| && s.jobs[k].rt.stopAfterCallback
    ensures s.jobs[k].rt.callbackTask == Some(TICKER) && s.jobs[k].epoch > 0 && s.jobs[k].rt.pending == None
  {
    hide L.PhaseOf, GenerationOf;
    assert SlotOk(ds, s, k);
  }

  // ----- a completion -----

  /** A worker's completion is accepted for the slot's generation, while nobody starts or stops the job. */
  lemma CompletionsEndTheJob(ds: seq<JobDesc>, s: State, t: Tid, k: nat, g: nat, err: Status)
    requires Inv(ds, s) && |ds| == |s.jobs|
    ensures Step(ds, s, t, WorkerMarks(k, g, err)).Some?
       <==> k < |s.jobs| && g > 0 && s.jobs[k].rt.generation == g && !s.jobs[k].rt.busy
    ensures Step(ds, s, t, WorkerMarks(k, g, err)).Some? ==>
      var n, jb := Step(ds, s, t, WorkerMarks(k, g, err)).value, s.jobs[k];
      && n.threads == s.threads && n.pool == s.pool
      && n.jobs == s.jobs[k := jb.(rt := jb.rt.(state := Stopped, lastError := err),
                                   log := jb.log + if jb.rt.state == Running then [L.Retire(jb.epoch)] else [])]
  {
    hide Inv;
    if k < |s.jobs| {
      assert s.jobs[k].log + [] == s.jobs[k].log;
    }
  }
}
