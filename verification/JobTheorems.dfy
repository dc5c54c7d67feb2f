/** What the job protocol guarantees in every reachable state and over every run. */
module JobTheorems {
  import opened Wrappers
  import opened JobRuntimes
  import opened JobProtocol
  import opened JobInvariant
  import opened JobSteps
  import L = JobLifecycle

  // ----- callbacks -----

  /**
   Every run of the concurrent manager looks to each job like a serial life:
   no start, stop or event callback ever runs out of turn.
   */
  lemma RunsAreSerial(ds: seq<JobDesc>, states: seq<State>, i: nat, k: nat)
    requires Run(ds, states) && i < |states| && k < |states[i].jobs|
    ensures L.Serial(states[i].jobs[k].log)
  {
    RunKeeps(ds, states, i);
    assert SlotOk(ds, states[i], k);
  }

  /** A job's stop callback runs only for an incarnation that came up, and once for it. */
  lemma StopsFollowStarts(ds: seq<JobDesc>, states: seq<State>, i: nat, k: nat, n: nat)
    requires Run(ds, states) && i < |states| && k < |states[i].jobs|
    requires n < |states[i].jobs[k].log| && states[i].jobs[k].log[n].StopBegin?
    ensures var log := states[i].jobs[k].log;
      && (exists b :: 0 <= b < n && log[b] == L.StartEnd(log[n].epoch, true))
      && (forall b :: 0 <= b < |log| && log[b] == log[n] ==> b == n)
  {
    RunsAreSerial(ds, states, i, k);
    L.StopsMatchStarts(states[i].jobs[k].log, n);
  }

  /**
   Over every run a job's callbacks take turns: a start or stop callback ends before
   anything else happens to the job, and while an event is admitted or its callback runs
   nothing can happen but that its incarnation ends silently; its stop callback comes afterwards.
   */
  lemma CallbacksNeverOverlap(ds: seq<JobDesc>, states: seq<State>, i: nat, k: nat, n: nat)
    requires Run(ds, states) && i < |states| && k < |states[i].jobs| && n + 1 < |states[i].jobs[k].log|
    ensures var log := states[i].jobs[k].log;
      && (log[n].StartBegin? ==> log[n + 1].StartEnd? && log[n + 1].epoch == log[n].epoch)
      && (log[n].StopBegin? ==> log[n + 1] == L.StopEnd(log[n].epoch))
      && (log[n].Admit? ==> log[n + 1] == L.EventBegin(log[n].epoch) || log[n + 1] == L.Retire(log[n].epoch))
      && (log[n].EventBegin? ==> log[n + 1] == L.EventEnd(log[n].epoch) || log[n + 1] == L.Retire(log[n].epoch))
      && (log[n].EventBegin? && log[n + 1].Retire? && n + 2 < |log| ==> log[n + 2] == L.EventEnd(log[n].epoch))
  {
    RunsAreSerial(ds, states, i, k);
    L.CallbacksTakeTurns(states[i].jobs[k].log, n);
  }

  /**
   Over every run an event callback begins right after a tick has admitted it to an incarnation
   that was up, neither ended nor being stopped; only its silent end may come in between.
   */
  lemma EventsWereAdmitted(ds: seq<JobDesc>, states: seq<State>, i: nat, k: nat, n: nat)
    requires Run(ds, states) && i < |states| && k < |states[i].jobs|
    requires n < |states[i].jobs[k].log| && states[i].jobs[k].log[n].EventBegin?
    ensures var log := states[i].jobs[k].log;
      exists a :: 0 <= a < n && log[a] == L.Admit(log[n].epoch)
                  && (a == n - 1 || (a == n - 2 && log[n - 1] == L.Retire(log[n].epoch)))
                  && L.Alive(log[..a], log[n].epoch)
  {
    RunsAreSerial(ds, states, i, k);
    var log := states[i].jobs[k].log;
    hide Run, L.Serial;
    L.EventsAreAdmitted(log, n);
    var a := if log[n - 1].Admit? then n - 1 else n - 2;
    L.EventsAreAdmitted(log, a);
    assert log[a] == L.Admit(log[n].epoch);
  }

  /** Over every run a tick is credited only to an incarnation that is up, neither ended nor being stopped. */
  lemma CreditsAreDue(ds: seq<JobDesc>, states: seq<State>, i: nat, k: nat, n: nat)
    requires Run(ds, states) && i < |states| && k < |states[i].jobs|
    requires n < |states[i].jobs[k].log| && states[i].jobs[k].log[n].Credit?
    ensures var log := states[i].jobs[k].log;
      L.Alive(log[..n], log[n].epoch)
  {
    RunsAreSerial(ds, states, i, k);
    L.CreditsGoToTheLiving(states[i].jobs[k].log, n);
  }

  /** At most one frame of all threads is inside a callback of a given job. */
  lemma CallbacksExclude(ds: seq<JobDesc>, s: State, t: Tid, d: nat, u: Tid, e: nat)
    requires Inv(ds, s) && HasFrame(s, t, d) && HasFrame(s, u, e)
    requires InCallback(s.threads[t][d].pc) && InCallback(s.threads[u][e].pc)
    requires s.threads[t][d].job == s.threads[u][e].job
    ensures t == u && d == e
  {
    assert FrameOk(s, t, d) && FrameOk(s, u, e);
    assert SlotOk(ds, s, s.threads[t][d].job);
  }

  /** While a stop runs or is about to, no event callback of the job is in flight. */
  lemma StopsWaitForEvents(ds: seq<JobDesc>, s: State, t: Tid, d: nat, u: Tid, e: nat)
    requires Inv(ds, s) && HasFrame(s, t, d) && HasFrame(s, u, e)
    requires s.threads[t][d].pc in {CallEvent, Eventing} && s.threads[t][d].job == s.threads[u][e].job
    requires Owns(s.threads[u][e].pc)
    ensures s.threads[u][e].pc in {StartWait, StopWait} && u != TICKER
  {
    assert FrameOk(s, t, d) && FrameOk(s, u, e);
    assert SlotOk(ds, s, s.threads[t][d].job);
  }

  /**
   When an event callback has returned, its tick is credited exactly if the job
   still runs, and then to the incarnation that was dispatched. No bound on the
   number of starts is needed: the counter cannot move twice under a callback.
   */
  lemma TicksCreditTheDispatched(ds: seq<JobDesc>, s: State)
    requires Inv(ds, s) && HasFrame(s, TICKER, 0) && s.threads[TICKER][0].pc == TickEnd
    ensures var f := s.threads[TICKER][0];
      && f.job < |s.jobs|
      && (TickCredited(DropCallback(s.jobs[f.job].rt), f.generation) <==> s.jobs[f.job].rt.state == Running)
      && (s.jobs[f.job].rt.state == Running ==> s.jobs[f.job].epoch == f.epoch)
  {
    assert FrameOk(s, TICKER, 0);
    assert SlotOk(ds, s, s.threads[TICKER][0].job);
  }

  /**
   A worker that captured the generation of incarnation `captured` can mark the
   job stopped only while that incarnation is current, as long as the 32-bit
   counter has not gone all the way round since.
   */
  lemma StaleCompletionsAreRefused(ds: seq<JobDesc>, s: State, k: nat, captured: nat)
    requires Inv(ds, s) && k < |s.jobs|
    requires 0 < captured <= s.jobs[k].epoch < captured + GENERATIONS
    ensures MarkAccepted(s.jobs[k].rt, GenerationOf(captured)) ==> s.jobs[k].epoch == captured
  {
    assert SlotOk(ds, s, k);
    GenerationsRepeatOnlyAfterAFullTurn(captured, s.jobs[k].epoch);
  }

  // ----- ownership of lifecycle_busy -----

  /** The slot's flags and state agree as the public status reports them. */
  lemma SlotFacts(ds: seq<JobDesc>, s: State, k: nat)
    requires Inv(ds, s) && k < |s.jobs|
    ensures var rt := s.jobs[k].rt;
      && (rt.state == Waiting ==> rt.pending.Some? && rt.callbackRefs == 0)
      && (rt.state in {Running, Failed} ==> rt.pending == None)
      && (rt.stopAfterCallback ==> rt.busy && rt.state == Stopped && rt.callbackRefs > 0)
  {
    assert SlotOk(ds, s, k);
  }

  /** Frame (t, d) owns slot k. */
  predicate OwnsSlot(s: State, t: Tid, d: nat, k: nat) {
    HasFrame(s, t, d) && s.threads[t][d].job == k && Owns(s.threads[t][d].pc)
  }

  lemma OwningFrames(ds: seq<JobDesc>, s: State, k: nat, t: Tid, d: nat)
    requires Inv(ds, s) && k < |s.jobs|
    ensures OwnsSlot(s, t, d, k) <==> s.jobs[k].owner == Thread(t, d)
  {
    assert SlotOk(ds, s, k);
    if HasFrame(s, t, d) {
      assert FrameOk(s, t, d);
    }
  }

  /**
   A busy slot has exactly one owner that will clear it: one frame, or a stop
   deferred to the return of the callback the ticker's bottom frame is running.
   */
  lemma BusyHasOneOwner(ds: seq<JobDesc>, s: State, k: nat)
    requires Inv(ds, s) && k < |s.jobs|
    ensures s.jobs[k].rt.busy && !s.jobs[k].rt.stopAfterCallback <==> exists t, d :: OwnsSlot(s, t, d, k)
    ensures forall t, d, u, e :: OwnsSlot(s, t, d, k) && OwnsSlot(s, u, e, k) ==> t == u && d == e
    ensures s.jobs[k].rt.stopAfterCallback ==>
      && s.jobs[k].rt.busy
      && HasFrame(s, TICKER, 0) && s.threads[TICKER][0].job == k
      && s.threads[TICKER][0].pc in {Eventing, TickEnd}
  {
    assert SlotOk(ds, s, k);
    forall t, d
      ensures OwnsSlot(s, t, d, k) <==> s.jobs[k].owner == Thread(t, d)
    {
      OwningFrames(ds, s, k, t, d);
    }
    if s.jobs[k].owner.Thread? {
      assert OwnsSlot(s, s.jobs[k].owner.tid, s.jobs[k].owner.depth, k);
    }
  }

  /** The re-check under the lock never turns an owner away, so no result is dropped. */
  lemma OwnersAreRecognised(ds: seq<JobDesc>, s: State, t: Tid, d: nat)
    requires Inv(ds, s) && HasFrame(s, t, d)
    ensures var f := s.threads[t][d];
      && f.job < |s.jobs|
      && (f.pc in {StartQueue, StartCommit, StopFinish, DeferFinish} ==> StillMine(s.jobs[f.job].rt, f.generation))
      && (f.pc == RetryCommit ==> RetryUnchanged(s.jobs[f.job].rt, f.generation, f.seen, true))
  {
    assert FrameOk(s, t, d);
    assert SlotOk(ds, s, s.threads[t][d].job);
  }

  // ----- queued start records -----

  /** No record is freed twice or used after its end, and the wait counters are exact. */
  lemma RecordsAreSound(ds: seq<JobDesc>, states: seq<State>, i: nat)
    requires Run(ds, states) && i < |states|
    ensures var p := states[i].pool;
      && !p.fault
      && p.waiting == |QueuedRecords(p.live)|
      && p.queuedStarts == p.waiting + p.waitSuccesses + p.waitCancellations
  {
    RunKeeps(ds, states, i);
  }

  /** While a retry calls start, the record it passes is live and is the one queued. */
  lemma RetriedRecordsAreLive(ds: seq<JobDesc>, s: State, t: Tid, d: nat)
    requires Inv(ds, s) && HasFrame(s, t, d)
    requires s.threads[t][d].pc in {RetryCall, RetryStarting, RetryCommit}
    ensures var f := s.threads[t][d];
      && f.seen.addr in s.pool.live
      && s.pool.live[f.seen.addr] == Record(f.seen.serial, InSlot(f.job), true)
      && f.job < |s.jobs| && s.jobs[f.job].rt.pending == Some(f.seen)
  {
    assert FrameOk(s, t, d);
    assert SlotOk(ds, s, s.threads[t][d].job);
  }

  /**
   A retry that passes its re-check claims the very record it observed, although
   pointers are compared by address and a freed address may be given out again:
   queuing anew bumps the generation. Only a full turn of the counter between
   the two looks could hide a replacement.
   */
  lemma RetriesClaimWhatTheySaw(ds: seq<JobDesc>, s: State)
    requires Inv(ds, s) && HasFrame(s, TICKER, 0) && s.threads[TICKER][0].pc == RetryClaim
    requires var f := s.threads[TICKER][0];
      && f.job < |s.jobs|
      && RetryUnchanged(s.jobs[f.job].rt, f.generation, f.seen, false)
      && s.jobs[f.job].epoch < f.epoch + GENERATIONS
    ensures var f := s.threads[TICKER][0];
      s.jobs[f.job].rt.pending == Some(f.seen) && s.jobs[f.job].epoch == f.epoch
  {
    var f := s.threads[TICKER][0];
    assert SlotOk(ds, s, f.job);
    GenerationsRepeatOnlyAfterAFullTurn(f.epoch, s.jobs[f.job].epoch);
  }

  // ----- progress -----

  /** The plainest choice: callbacks return OK and nothing new is dispatched or claimed. */
  const PLAIN := Choice(false, false, Ok, None)

  /** The ticker finds the callback count at zero whenever it reaches a wait loop. */
  lemma TickerNeverWaits(ds: seq<JobDesc>, s: State, d: nat)
    requires Inv(ds, s) && HasFrame(s, TICKER, d)
    requires s.threads[TICKER][d].pc in {StartWait, StopWait}
    ensures s.threads[TICKER][d].job < |s.jobs|
    ensures s.jobs[s.threads[TICKER][d].job].rt.callbackRefs == 0
  {
    assert FrameOk(s, TICKER, d);
    assert SlotOk(ds, s, s.threads[TICKER][d].job);
  }

  /** Steps a frame may still need before it returns to its caller. */
  function Rank(f: Frame, jobs: nat): nat {
    match f.pc
    case StartEnter => 9
    case StartWait => 8
    case StartCallStop => 7
    case StartStopping => 6
    case StartRelease => 5
    case StartQueue => 4
    case StartCall => 4
    case Starting => 3
    case StartCommit => 2
    case StopEnter => 6
    case StopFree => 1
    case StopWait => 5
    case StopCallStop => 4
    case StopStopping => 3
    case StopFinish => 2
    case _ => TickRank(f.pc) + if f.job < jobs then 20 * (jobs - f.job) else 0
  }

  function TickRank(pc: Pc): nat {
    match pc
    case TickRetry => 14
    case RetryClaim => 13
    case RetryCall => 12
    case RetryStarting => 11
    case RetryCommit => 10
    case RetryFree => 9
    case TickDispatch => 8
    case CallEvent => 7
    case Eventing => 6
    case TickEnd => 5
    case DeferCallStop => 4
    case DeferStopping => 3
    case _ => 2
  }

  function StackWork(st: seq<Frame>, jobs: nat): nat {
    if st == [] then 0 else StackWork(st[..|st| - 1], jobs) + Rank(st[|st| - 1], jobs)
  }

  function Work(ts: seq<seq<Frame>>, jobs: nat): nat {
    if ts == [] then 0 else StackWork(ts[0], jobs) + Work(ts[1..], jobs)
  }

  lemma {:induction false} WorkUpdate(ts: seq<seq<Frame>>, t: nat, st: seq<Frame>, jobs: nat)
    requires t < |ts|
    ensures Work(ts[t := st], jobs) == Work(ts, jobs) - StackWork(ts[t], jobs) + StackWork(st, jobs)
  {
    if t == 0 {
      assert ts[t := st][1..] == ts[1..];
    } else {
      assert ts[t := st][1..] == ts[1..][t - 1 := st];
      WorkUpdate(ts[1..], t - 1, st, jobs);
    }
  }

  lemma CallsDescend(d: JobDesc, jb: Job, f: Frame, p: Pool, t: Tid, m: nat, c: Choice, jobs: nat)
    requires f.pc in {StartWait, StopWait} ==> jb.rt.callbackRefs == 0
    ensures OfStart(f.pc) ==>
      var e := PerformStart(d, jb, f, p, t, m, c);
      e.frame.Some? ==> Rank(e.frame.value, jobs) < Rank(f, jobs)
    ensures OfStop(f.pc) ==>
      var e := PerformStop(d, jb, f, p, t, m);
      e.frame.Some? ==> Rank(e.frame.value, jobs) < Rank(f, jobs)
  {
    hide Move, Finish, Discard, Enqueue, Alloc, Logged, ClaimStart, ClaimStop, CommitStart, QueueStart, FinishStop;
  }

  /** The program points of a tick that retry a queued start. */
  predicate OfRetry(pc: Pc) {
    pc in {TickRetry, RetryClaim, RetryCall, RetryStarting, RetryCommit, RetryFree}
  }

  lemma RetriesDescend(d: JobDesc, jb: Job, f: Frame, p: Pool, t: Tid, m: nat, c: Choice, jobs: nat)
    requires f.job < jobs && OfRetry(f.pc)
    ensures var e := PerformTick(d, jb, f, p, t, m, c, jobs);
      e.frame.Some? ==> Rank(e.frame.value, jobs) < Rank(f, jobs)
  {
    hide CommitRetry, ClaimRetry, Move, Finish, Read, Logged;
  }

  lemma EventsDescend(d: JobDesc, jb: Job, f: Frame, p: Pool, t: Tid, m: nat, c: Choice, jobs: nat)
    requires f.job < jobs && OfTick(f.pc) && !OfRetry(f.pc)
    ensures var e := PerformTick(d, jb, f, p, t, m, c, jobs);
      e.frame.Some? ==> Rank(e.frame.value, jobs) < Rank(f, jobs)
  {
    hide EnterCallback, DropCallback, TakeDeferredStop, CreditTick, FinishStop, Logged;
  }

  lemma PerformDescends(d: JobDesc, jb: Job, f: Frame, p: Pool, t: Tid, m: nat, c: Choice, jobs: nat)
    requires f.job < jobs
    requires f.pc in {StartWait, StopWait} ==> jb.rt.callbackRefs == 0
    ensures var e := Perform(d, jb, f, p, t, m, c, jobs);
      e.frame.Some? ==> Rank(e.frame.value, jobs) < Rank(f, jobs)
  {
    hide PerformStart, PerformStop, PerformTick, Rank;
    if OfTick(f.pc) {
      if OfRetry(f.pc) {
        RetriesDescend(d, jb, f, p, t, m, c, jobs);
      } else {
        EventsDescend(d, jb, f, p, t, m, c, jobs);
      }
    } else {
      CallsDescend(d, jb, f, p, t, m, c, jobs);
    }
  }

  /** The next step of thread t is a poll of a wait loop that finds a callback in flight. */
  predicate PollsInVain(s: State, t: Tid) {
    t < |s.threads| && s.threads[t] != []
    && var f := s.threads[t][|s.threads[t]| - 1];
       f.job < |s.jobs| && f.pc in {StartWait, StopWait} && s.jobs[f.job].rt.callbackRefs != 0
  }

  /** Only others than the ticker poll in vain, and only while the ticker has an event of the job in flight. */
  lemma PollersWaitForTheTicker(ds: seq<JobDesc>, s: State, t: Tid)
    requires Inv(ds, s) && PollsInVain(s, t)
    ensures t != TICKER && HasFrame(s, TICKER, 0)
    ensures s.threads[TICKER][0].pc in {CallEvent, Eventing, TickEnd}
    ensures s.threads[TICKER][0].job == s.threads[t][|s.threads[t]| - 1].job
  {
    var m := |s.threads[t]| - 1;
    assert FrameOk(s, t, m);
    assert SlotOk(ds, s, s.threads[t][m].job);
  }

  lemma StackDescends(before: seq<Frame>, m: nat, f: Option<Frame>, jobs: nat)
    requires |before| == m + 1 && (f.Some? ==> Rank(f.value, jobs) < Rank(before[m], jobs))
    ensures StackWork(before[..m] + Opt(f), jobs) < StackWork(before, jobs)
  {
    hide Rank;
    RanksArePositive(before[m], jobs);
    var st := before[..m] + Opt(f);
    assert st == if f.Some? then before[..m] + [f.value] else before[..m];
    assert f.Some? ==> st[..|st| - 1] == before[..m];
  }

  lemma RanksArePositive(f: Frame, jobs: nat)
    ensures Rank(f, jobs) > 0
  {
  }

  /**
   Whatever the environment chooses, every step of every thread brings it nearer to its
   return, but for polls in vain, which change nothing.
   */
  lemma EveryStepDescends(ds: seq<JobDesc>, s: State, t: Tid, c: Choice)
    requires |ds| == |s.jobs| && Step(ds, s, t, Advance(c)).Some?
    ensures var n := Step(ds, s, t, Advance(c)).value;
      if PollsInVain(s, t) then n == s else Work(n.threads, |ds|) < Work(s.threads, |ds|)
  {
    var m := |s.threads[t]| - 1;
    var f := s.threads[t][m];
    var e := Perform(ds[f.job], s.jobs[f.job], f, s.pool, t, m, c, |s.jobs|);
    if PollsInVain(s, t) {
      VainPollsChangeNothing(ds[f.job], s.jobs[f.job], f, s.pool, t, m, c, |s.jobs|);
      assert s.threads[t] == s.threads[t][..m] + [f];
    } else {
      hide Perform, Rank, StackWork, Work;
      PerformDescends(ds[f.job], s.jobs[f.job], f, s.pool, t, m, c, |s.jobs|);
      StackDescends(s.threads[t], m, e.frame, |ds|);
      WorkUpdate(s.threads, t, s.threads[t][..m] + Opt(e.frame), |ds|);
    }
  }

  lemma VainPollsChangeNothing(d: JobDesc, jb: Job, f: Frame, p: Pool, t: Tid, m: nat, c: Choice, jobs: nat)
    requires f.pc in {StartWait, StopWait} && jb.rt.callbackRefs != 0
    ensures Perform(d, jb, f, p, t, m, c, jobs) == Effect(Some(f), jb, p)
  {
  }

  predicate AtRest(s: State) {
    forall t :: 0 <= t < |s.threads| ==> s.threads[t] == []
  }

  predicate Outside(s: State, t: Tid) {
    t < |s.threads| && s.threads[t] == []
  }

  /** Unless all threads are outside, one is in the manager that no poll in vain will keep from moving. */
  lemma SomebodyMoves(ds: seq<JobDesc>, s: State) returns (t: Tid)
    requires Inv(ds, s) && !AtRest(s)
    ensures t < |s.threads| && s.threads[t] != [] && (t == TICKER || Outside(s, TICKER))
  {
    t := TICKER;
    if s.threads[TICKER] == [] {
      t :| t < |s.threads| && s.threads[t] != [];
    }
  }

  /** Unless all threads are outside the manager, one of them can step nearer to its return. */
  lemma Progress(ds: seq<JobDesc>, s: State) returns (t: Tid, n: State)
    requires Inv(ds, s) && !AtRest(s)
    ensures !PollsInVain(s, t) && Step(ds, s, t, Advance(PLAIN)) == Some(n)
    ensures Work(n.threads, |ds|) < Work(s.threads, |ds|)
  {
    t := SomebodyMoves(ds, s);
    if PollsInVain(s, t) {
      PollersWaitForTheTicker(ds, s, t);
    }
    AdvanceKeeps(ds, s, t, PLAIN);
    EveryStepDescends(ds, s, t, PLAIN);
    n := Step(ds, s, t, Advance(PLAIN)).value;
  }

  // ----- schedules -----

  predicate IsCall(a: Action) {
    a.CallStart? || a.CallStop? || a.CallTick?
  }

  /** States passed through while the threads take the steps of a schedule, calls included. */
  ghost predicate Follows(ds: seq<JobDesc>, states: seq<State>, schedule: seq<(Tid, Action)>) {
    && |states| == |schedule| + 1
    && (forall i :: 0 <= i < |states| ==> |states[i].jobs| == |ds|)
    && (forall i :: 0 <= i < |schedule| ==>
          Step(ds, states[i], schedule[i].0, schedule[i].1) == Some(states[i + 1]))
  }

  lemma {:induction false} FollowingKeeps(ds: seq<JobDesc>, states: seq<State>, schedule: seq<(Tid, Action)>, i: nat)
    requires Follows(ds, states, schedule) && Inv(ds, states[0]) && i < |states|
    ensures Inv(ds, states[i])
  {
    hide Inv, Step;
    if i > 0 {
      FollowingKeeps(ds, states, schedule, i - 1);
      assert Step(ds, states[i - 1], schedule[i - 1].0, schedule[i - 1].1) == Some(states[i - 1 + 1]);
      StepKeeps(ds, states[i - 1], schedule[i - 1].0, schedule[i - 1].1);
    }
  }

  /** Threads in the manager go on, in any order, and workers report, but nobody calls. */
  ghost predicate Uncalled(ds: seq<JobDesc>, states: seq<State>, schedule: seq<(Tid, Action)>) {
    Follows(ds, states, schedule) && forall i :: 0 <= i < |schedule| ==> !IsCall(schedule[i].1)
  }

  /** How many of the steps are steps of threads other than polls in vain. */
  function Moved(states: seq<State>, schedule: seq<(Tid, Action)>): nat
    requires |states| == |schedule| + 1
  {
    if schedule == [] then 0
    else
      var n := |schedule| - 1;
      Moved(states[..n + 1], schedule[..n])
      + if schedule[n].1.Advance? && !PollsInVain(states[n], schedule[n].0) then 1 else 0
  }

  lemma {:induction false} FramesAreWork(ts: seq<seq<Frame>>, jobs: nat, t: nat)
    requires t < |ts|
    ensures ts[t] != [] ==> Work(ts, jobs) > 0
  {
    if t > 0 {
      FramesAreWork(ts[1..], jobs, t - 1);
    } else if ts[0] != [] {
      RanksArePositive(ts[0][|ts[0]| - 1], jobs);
    }
  }

  lemma StepSpends(ds: seq<JobDesc>, s: State, t: Tid, a: Action, n: State)
    requires |s.jobs| == |ds| && !IsCall(a) && Step(ds, s, t, a) == Some(n)
    ensures Work(n.threads, |ds|) + (if a.Advance? && !PollsInVain(s, t) then 1 else 0) <= Work(s.threads, |ds|)
  {
    if a.Advance? {
      EveryStepDescends(ds, s, t, a.choice);
    }
  }

  /**
   No schedule goes on for ever: without new calls, whatever the callbacks return and
   however threads take turns, at most Work(s) steps are anything but polls in vain, and
   once as many were taken all threads have left the manager.
   */
  lemma {:induction false} SchedulesEnd(ds: seq<JobDesc>, states: seq<State>, schedule: seq<(Tid, Action)>)
    requires Uncalled(ds, states, schedule)
    ensures Work(states[|schedule|].threads, |ds|) + Moved(states, schedule) <= Work(states[0].threads, |ds|)
    ensures Moved(states, schedule) >= Work(states[0].threads, |ds|) ==> AtRest(states[|schedule|])
  {
    if schedule != [] {
      var n := |schedule| - 1;
      SchedulesEnd(ds, states[..n + 1], schedule[..n]);
      StepSpends(ds, states[n], schedule[n].0, schedule[n].1, states[n + 1]);
    }
    if Work(states[|schedule|].threads, |ds|) == 0 {
      forall t | 0 <= t < |states[|schedule|].threads|
        ensures states[|schedule|].threads[t] == []
      {
        FramesAreWork(states[|schedule|].threads, |ds|, t);
      }
    }
  }

  /** Work is never gained. */
  lemma {:induction false} WorkOnlyFalls(ds: seq<JobDesc>, states: seq<State>, schedule: seq<(Tid, Action)>,
                                         i: nat, j: nat)
    requires Uncalled(ds, states, schedule) && i <= j < |states|
    ensures Work(states[j].threads, |ds|) <= Work(states[i].threads, |ds|)
    decreases j
  {
    hide Step, Work;
    if i < j {
      WorkOnlyFalls(ds, states, schedule, i, j - 1);
      assert Step(ds, states[j - 1], schedule[j - 1].0, schedule[j - 1].1) == Some(states[j - 1 + 1]);
      StepSpends(ds, states[j - 1], schedule[j - 1].0, schedule[j - 1].1, states[j]);
    }
  }

  lemma IdleStaysIdle(ds: seq<JobDesc>, s: State, t: Tid, a: Action, n: State, u: Tid)
    requires |s.jobs| == |ds| && !IsCall(a) && Step(ds, s, t, a) == Some(n)
    requires u < |s.threads| && s.threads[u] == []
    ensures u < |n.threads| && n.threads[u] == []
  {
    hide Perform;
  }

  /** Without calls a thread that has left the manager stays outside. */
  lemma {:induction false} NobodyReturns(ds: seq<JobDesc>, states: seq<State>, schedule: seq<(Tid, Action)>,
                                         i: nat, j: nat, u: Tid)
    requires Uncalled(ds, states, schedule) && i <= j < |states|
    requires u < |states[i].threads| && states[i].threads[u] == []
    ensures u < |states[j].threads| && states[j].threads[u] == []
    decreases j
  {
    hide Step;
    if i < j {
      NobodyReturns(ds, states, schedule, i, j - 1, u);
      assert Step(ds, states[j - 1], schedule[j - 1].0, schedule[j - 1].1) == Some(states[j - 1 + 1]);
      IdleStaysIdle(ds, states[j - 1], schedule[j - 1].0, schedule[j - 1].1, states[j], u);
    }
  }

  /** Between lo and hi every thread that is in the manager at lo gets a turn. */
  ghost predicate Round(states: seq<State>, schedule: seq<(Tid, Action)>, lo: nat, hi: nat)
    requires |states| == |schedule| + 1
  {
    && lo <= hi <= |schedule|
    && (forall t :: 0 <= t < |states[lo].threads| && states[lo].threads[t] != [] ==>
          exists i :: lo <= i < hi && TakesTurn(schedule[i], t))
  }

  predicate TakesTurn(turn: (Tid, Action), t: Tid) {
    turn.0 == t && turn.1.Advance?
  }

  /** Each round begins where the one before ended. */
  ghost predicate InRounds(states: seq<State>, schedule: seq<(Tid, Action)>, cuts: seq<nat>) {
    && |states| == |schedule| + 1
    && cuts != [] && cuts[0] == 0 && cuts[|cuts| - 1] == |schedule|
    && (forall r :: 0 <= r < |cuts| - 1 ==> Round(states, schedule, cuts[r], cuts[r + 1]))
  }

  /** A turn that is not a poll in vain: the ticker's, or after the ticker has left anybody's. */
  lemma TurnsCount(ds: seq<JobDesc>, states: seq<State>, schedule: seq<(Tid, Action)>, lo: nat, i: nat, t: Tid)
    requires Uncalled(ds, states, schedule) && Inv(ds, states[0]) && lo <= i < |schedule|
    requires TakesTurn(schedule[i], t) && (t == TICKER || Outside(states[lo], TICKER))
    ensures Work(states[i + 1].threads, |ds|) < Work(states[i].threads, |ds|)
  {
    hide Work, Step, Inv;
    FollowingKeeps(ds, states, schedule, i);
    if PollsInVain(states[i], t) {
      PollersWaitForTheTicker(ds, states[i], t);
      NobodyReturns(ds, states, schedule, lo, i, TICKER);
    } else {
      StepSpends(ds, states[i], t, schedule[i].1, states[i + 1]);
    }
  }

  lemma RoundsDescend(ds: seq<JobDesc>, states: seq<State>, schedule: seq<(Tid, Action)>, lo: nat, hi: nat)
    requires Uncalled(ds, states, schedule) && Inv(ds, states[0]) && Round(states, schedule, lo, hi)
    requires !AtRest(states[lo])
    ensures Work(states[hi].threads, |ds|) < Work(states[lo].threads, |ds|)
  {
    hide Work, Step, Inv, AtRest, Outside, TakesTurn;
    FollowingKeeps(ds, states, schedule, lo);
    var t := SomebodyMoves(ds, states[lo]);
    var i :| lo <= i < hi && TakesTurn(schedule[i], t);
    TurnsCount(ds, states, schedule, lo, i, t);
    WorkOnlyFalls(ds, states, schedule, lo, i);
    WorkOnlyFalls(ds, states, schedule, i + 1, hi);
  }

  lemma {:induction false} RestLasts(ds: seq<JobDesc>, states: seq<State>, schedule: seq<(Tid, Action)>, i: nat, j: nat)
    requires Uncalled(ds, states, schedule) && i <= j < |states| && AtRest(states[i])
    ensures AtRest(states[j])
    decreases j
  {
    hide Step;
    if i < j {
      RestLasts(ds, states, schedule, i, j - 1);
      assert Step(ds, states[j - 1], schedule[j - 1].0, schedule[j - 1].1) == Some(states[j - 1 + 1]);
      RestedStep(ds, states[j - 1], schedule[j - 1].0, schedule[j - 1].1, states[j]);
    }
  }

  lemma RestedStep(ds: seq<JobDesc>, s: State, t: Tid, a: Action, n: State)
    requires |s.jobs| == |ds| && !IsCall(a) && Step(ds, s, t, a) == Some(n) && AtRest(s)
    ensures AtRest(n)
  {
  }

  /** After r rounds all threads have left, or r steps of work have been done. */
  lemma {:induction false} RoundsWork(ds: seq<JobDesc>, states: seq<State>, schedule: seq<(Tid, Action)>,
                                      cuts: seq<nat>, r: nat)
    requires Uncalled(ds, states, schedule) && Inv(ds, states[0]) && InRounds(states, schedule, cuts) && r < |cuts|
    ensures cuts[r] <= |schedule|
    ensures AtRest(states[cuts[r]]) || Work(states[cuts[r]].threads, |ds|) + r <= Work(states[0].threads, |ds|)
  {
    hide Work, Step, AtRest;
    if r > 0 {
      RoundsWork(ds, states, schedule, cuts, r - 1);
      assert Round(states, schedule, cuts[r - 1], cuts[r - 1 + 1]);
      if AtRest(states[cuts[r - 1]]) {
        RestLasts(ds, states, schedule, cuts[r - 1], cuts[r]);
      } else {
        RoundsDescend(ds, states, schedule, cuts[r - 1], cuts[r]);
      }
    }
  }

  /**
   Fair schedules come to rest: without new calls, whatever the callbacks return, after at
   most Work(s) rounds in which every thread still in the manager has had a turn, all
   threads are outside and every slot is free.
   */
  lemma FairSchedulesRest(ds: seq<JobDesc>, states: seq<State>, schedule: seq<(Tid, Action)>, cuts: seq<nat>)
    requires Uncalled(ds, states, schedule) && Inv(ds, states[0]) && InRounds(states, schedule, cuts)
    requires |cuts| - 1 >= Work(states[0].threads, |ds|)
    ensures var last := states[|schedule|];
      AtRest(last) && |last.jobs| == |ds|
      && (forall k :: 0 <= k < |last.jobs| ==> !last.jobs[k].rt.busy && last.jobs[k].rt.callbackRefs == 0)
  {
    hide Work, Step, Inv;
    RoundsWork(ds, states, schedule, cuts, |cuts| - 1);
    var last := states[|schedule|];
    forall t | 0 <= t < |last.threads|
      ensures last.threads[t] == []
    {
      FramesAreWork(last.threads, |ds|, t);
    }
    FollowingKeeps(ds, states, schedule, |schedule|);
    RestIsClean(ds, last);
  }

  /** At rest no slot is busy, no callback is in flight, and every record is queued on its job. */
  lemma RestIsClean(ds: seq<JobDesc>, s: State)
    requires Inv(ds, s) && AtRest(s)
    ensures forall k :: 0 <= k < |s.jobs| ==> !s.jobs[k].rt.busy && s.jobs[k].rt.callbackRefs == 0
    ensures forall a :: a in s.pool.live ==>
      s.pool.live[a].holder.InSlot?
      && s.pool.live[a].holder.job < |s.jobs| && PointsAt(s.jobs[s.pool.live[a].holder.job].rt.pending, a)
  {
    forall k | 0 <= k < |s.jobs|
      ensures !s.jobs[k].rt.busy && s.jobs[k].rt.callbackRefs == 0
    {
      assert SlotOk(ds, s, k);
    }
    forall a | a in s.pool.live
      ensures RecordOk(s, a)
    {
    }
  }

  ghost predicate Path(ds: seq<JobDesc>, path: seq<State>, from: State) {
    && path != [] && path[0] == from
    && (forall i :: 0 <= i < |path| - 1 ==> Moves(ds, path[i], path[i + 1]))
  }

  /**
   No run wedges: from every reachable state, if callbacks return and nobody makes
   new calls, all threads leave the manager and every slot is free again.
   */
  lemma {:induction false} CanAlwaysComeToRest(ds: seq<JobDesc>, s: State) returns (path: seq<State>)
    requires Inv(ds, s)
    ensures Path(ds, path, s)
    ensures var last := path[|path| - 1];
      AtRest(last) && |last.jobs| == |ds|
      && (forall k :: 0 <= k < |last.jobs| ==> !last.jobs[k].rt.busy && last.jobs[k].rt.callbackRefs == 0)
    decreases Work(s.threads, |ds|)
  {
    hide SlotOk, FrameOk, RecordOk, PoolOk, Work, Step, AtRest;
    if AtRest(s) {
      RestIsClean(ds, s);
      path := [s];
    } else {
      var t, n := Progress(ds, s);
      StepKeeps(ds, s, t, Advance(PLAIN));
      var rest := CanAlwaysComeToRest(ds, n);
      path := [s] + rest;
      assert Moves(ds, s, n);
      forall i | 0 <= i < |path| - 1
        ensures Moves(ds, path[i], path[i + 1])
      {
        if i > 0 {
          assert path[i] == rest[i - 1] && path[i + 1] == rest[i - 1 + 1];
        }
      }
    }
  }
}
