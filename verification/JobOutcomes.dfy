/**
 What a start leaves behind, over every schedule of the threads: the status the callback
 returned decides the state of the slot, and that state lasts until somebody calls again.
 */
module JobOutcomes {
  import opened Wrappers
  import opened JobRuntimes
  import opened JobProtocol
  import opened JobInvariant
  import opened JobSteps
  import opened JobTheorems
  import L = JobLifecycle

  // ----- what a start callback's return means for its slot -----

  /** The slot after a start whose callback returned `ret`; `kept` is the record of a start that waits. */
  predicate Outcome(rt: Runtime, ret: Status, kept: Option<Ptr>, err: Status) {
    && !rt.busy && rt.pending == kept
    && rt.state == (if kept.Some? then Waiting else if ret == Ok then Running else Failed)
    && rt.lastError == (if kept.Some? then err else ret)
  }

  /** The top frame of thread t is at `pc` and works on slot k. */
  predicate TopAt(s: State, t: Tid, pc: Pc, k: nat) {
    t < |s.threads| && s.threads[t] != []
    && s.threads[t][|s.threads[t]| - 1].pc == pc && s.threads[t][|s.threads[t]| - 1].job == k
  }

  function Top(s: State, t: Tid): Frame
    requires t < |s.threads| && s.threads[t] != []
  {
    s.threads[t][|s.threads[t]| - 1]
  }

  /** The record of a start that came up against a lack of memory is the new one it could allocate. */
  function Requeued(d: JobDesc, c: Choice, serial: nat): Option<Ptr> {
    if c.ret == NoMemory && d.present && d.needsStack && c.alloc.Some? then Some(Ptr(c.alloc.value, serial)) else None
  }

  // ----- one step -----

  /** What a thread's step makes of its slot and of the top of its stack. */
  lemma StepOf(ds: seq<JobDesc>, s: State, t: Tid, c: Choice, n: State) returns (e: Effect)
    requires |ds| == |s.jobs| && Step(ds, s, t, Advance(c)) == Some(n)
    ensures t < |s.threads| && s.threads[t] != [] && Top(s, t).job < |s.jobs| == |n.jobs|
    ensures var f := Top(s, t);
      && e == Perform(ds[f.job], s.jobs[f.job], f, s.pool, t, |s.threads[t]| - 1, c, |s.jobs|)
      && n.jobs[f.job] == e.job
      && (e.frame.Some? ==> t < |n.threads| && n.threads[t] != [] && Top(n, t) == e.frame.value)
  {
    hide Perform;
    var f := Top(s, t);
    e := Perform(ds[f.job], s.jobs[f.job], f, s.pool, t, |s.threads[t]| - 1, c, |s.jobs|);
  }

  /** While a slot is owned and no callback of it is in flight, a frame that does not own it cannot change it. */
  lemma StrangerChangesNothing(d: JobDesc, jb: Job, f: Frame, p: Pool, t: Tid, m: nat, c: Choice, jobs: nat)
    requires jb.rt.busy && !Owns(f.pc) && f.pc !in {CallEvent, Eventing, TickEnd}
    ensures Perform(d, jb, f, p, t, m, c, jobs).job == jb
  {
    hide Move, Finish, Discard, Enqueue, Alloc;
  }

  /** Steps of others leave the top of thread t's stack where it is. */
  lemma TopKept(ds: seq<JobDesc>, s: State, t: Tid, u: Tid, a: Action, n: State)
    requires |ds| == |s.jobs| && Step(ds, s, u, a) == Some(n) && t < |s.threads| && s.threads[t] != []
    requires !TakesTurn((u, a), t) && !InCallback(Top(s, t).pc)
    ensures |n.jobs| == |s.jobs| && t < |n.threads| && n.threads[t] == s.threads[t]
  {
    hide Perform;
  }

  lemma StrangersKeep(ds: seq<JobDesc>, s: State, t: Tid, pc: Pc, k: nat, u: Tid, a: Action, n: State)
    requires Inv(ds, s) && |ds| == |s.jobs| && Step(ds, s, u, a) == Some(n)
    requires TopAt(s, t, pc, k) && pc in {StartCommit, RetryCommit} && !TakesTurn((u, a), t)
    ensures TopAt(n, t, pc, k) && k < |n.jobs| && n.jobs[k] == s.jobs[k] && Top(n, t) == Top(s, t)
  {
    hide Perform, Inv;
    OwnedAlone(ds, s, t, pc, k);
    TopKept(ds, s, t, u, a, n);
    if a.Advance? {
      var m := |s.threads[u]| - 1;
      var f := s.threads[u][m];
      if f.job == k {
        NoStrangerOwns(ds, s, t, k, u, m);
        StrangerChangesNothing(ds[k], s.jobs[k], f, s.pool, u, m, a.choice, |s.jobs|);
      }
    }
  }

  lemma OwnedAlone(ds: seq<JobDesc>, s: State, t: Tid, pc: Pc, k: nat)
    requires Inv(ds, s) && TopAt(s, t, pc, k) && pc in {StartCommit, RetryCommit}
    ensures k < |s.jobs| && s.jobs[k].rt.busy && s.jobs[k].rt.callbackRefs == 0
    ensures s.jobs[k].owner == Thread(t, |s.threads[t]| - 1)
  {
    hide L.PhaseOf, GenerationOf;
    Unfold(ds, s, t, |s.threads[t]| - 1);
  }

  lemma NoStrangerOwns(ds: seq<JobDesc>, s: State, t: Tid, k: nat, u: Tid, m: nat)
    requires Inv(ds, s) && k < |s.jobs| && s.jobs[k].owner.Thread? && s.jobs[k].owner.tid == t && u != t
    requires s.jobs[k].rt.callbackRefs == 0
    requires HasFrame(s, u, m) && m + 1 == |s.threads[u]| && s.threads[u][m].job == k
    ensures !Owns(s.threads[u][m].pc) && s.threads[u][m].pc !in {CallEvent, Eventing, TickEnd}
  {
    hide L.PhaseOf, GenerationOf;
    Unfold(ds, s, u, m);
  }

  /** The callback's return is logged and its status kept for the commit; nothing else of the slot changes. */
  lemma CallbackReturns(ds: seq<JobDesc>, s: State, t: Tid, pc: Pc, c: Choice, n: State, k: nat)
    requires Inv(ds, s) && |ds| == |s.jobs| && Step(ds, s, t, Advance(c)) == Some(n)
    requires TopAt(s, t, pc, k) && pc in {Starting, RetryStarting}
    ensures TopAt(n, t, if pc == Starting then StartCommit else RetryCommit, k) && k < |n.jobs| == |s.jobs|
    ensures n.jobs[k] == s.jobs[k].(log := s.jobs[k].log + [L.StartEnd(s.jobs[k].epoch, c.ret == Ok)])
    ensures Top(n, t).ret == c.ret && (pc == RetryStarting ==> s.jobs[k].rt.pending.Some?)
    ensures pc == Starting ==> Top(n, t).offered == Requeued(ds[k], c, s.pool.serials)
  {
    hide L.PhaseOf, GenerationOf, Alloc, Inv, Step;
    var e := StepOf(ds, s, t, c, n);
    RunningFacts(ds, s, t, pc, k);
  }

  /** What the invariant says of a frame in a start callback, or on its way in or out. */
  lemma RunningFacts(ds: seq<JobDesc>, s: State, t: Tid, pc: Pc, k: nat)
    requires Inv(ds, s) && TopAt(s, t, pc, k)
    requires pc in {StartCall, Starting, StartCommit, RetryCall, RetryStarting, RetryCommit}
    ensures k < |s.jobs| && (pc in {StartCall, Starting} ==> Top(s, t).offered == None)
    ensures pc in {RetryCall, RetryStarting, RetryCommit} ==> s.jobs[k].rt.pending.Some?
    ensures pc in {StartCall, Starting, StartCommit} ==> s.jobs[k].rt.pending == None
  {
    hide L.PhaseOf, GenerationOf;
    Unfold(ds, s, t, |s.threads[t]| - 1);
  }

  /** The commit gives the slot the outcome of the status the callback returned. */
  lemma CommitDecides(ds: seq<JobDesc>, s: State, t: Tid, pc: Pc, c: Choice, n: State, k: nat)
    requires Inv(ds, s) && |ds| == |s.jobs| && Step(ds, s, t, Advance(c)) == Some(n)
    requires TopAt(s, t, pc, k) && pc in {StartCommit, RetryCommit}
    ensures k < |n.jobs| == |s.jobs| && n.jobs[k].log == s.jobs[k].log && n.jobs[k].epoch == s.jobs[k].epoch
    ensures var f := Top(s, t);
      if pc == StartCommit then Outcome(n.jobs[k].rt, f.ret, f.offered, Ok)
      else Outcome(n.jobs[k].rt, f.ret, if f.ret == NoMemory then s.jobs[k].rt.pending else None, NoMemory)
  {
    hide L.PhaseOf, GenerationOf, Move, Enqueue, Discard, Inv, Step;
    var e := StepOf(ds, s, t, c, n);
    OwnersAreRecognised(ds, s, t, |s.threads[t]| - 1);
    RunningFacts(ds, s, t, pc, k);
  }

  /** Until its thread commits, nobody touches the slot. */
  lemma {:induction false} OwnersAreLeftAlone(ds: seq<JobDesc>, states: seq<State>, schedule: seq<(Tid, Action)>,
                                              i: nat, j: nat, t: Tid, pc: Pc, k: nat)
    requires Follows(ds, states, schedule) && Inv(ds, states[0]) && i <= j < |states|
    requires TopAt(states[i], t, pc, k) && pc in {StartCommit, RetryCommit} && k < |ds|
    requires forall x :: i <= x < j ==> !TakesTurn(schedule[x], t)
    ensures TopAt(states[j], t, pc, k) && states[j].jobs[k] == states[i].jobs[k]
    ensures Top(states[j], t) == Top(states[i], t)
    decreases j
  {
    hide Inv, Step, TakesTurn, TopAt;
    if i < j {
      OwnersAreLeftAlone(ds, states, schedule, i, j - 1, t, pc, k);
      FollowingKeeps(ds, states, schedule, j - 1);
      var turn := schedule[j - 1];
      assert Step(ds, states[j - 1], turn.0, turn.1) == Some(states[j - 1 + 1]);
      StrangersKeep(ds, states[j - 1], t, pc, k, turn.0, turn.1, states[j]);
    }
  }

  /**
   Over every schedule: when a start callback has returned, and its thread has taken its next step, the slot is
   no longer busy. It runs if and only if the callback returned OK; it waits if and only if there was no memory
   and a record is queued for it, new or the one that was retried; otherwise it has failed with the status
   returned. The return is the one thing added to the job's log.
   */
  lemma StartsSettle(ds: seq<JobDesc>, states: seq<State>, schedule: seq<(Tid, Action)>, i: nat, j: nat,
                     t: Tid, pc: Pc, k: nat, c: Choice, after: Choice)
    requires Follows(ds, states, schedule) && Inv(ds, states[0]) && i < j < |schedule| && k < |ds|
    requires TopAt(states[i], t, pc, k) && pc in {Starting, RetryStarting}
    requires schedule[i] == (t, Advance(c)) && schedule[j] == (t, Advance(after))
    requires forall x :: i < x < j ==> !TakesTurn(schedule[x], t)
    ensures var was, now := states[i].jobs[k], states[j + 1].jobs[k];
      && now.epoch == was.epoch && now.log == was.log + [L.StartEnd(was.epoch, c.ret == Ok)]
      && (if pc == Starting then Outcome(now.rt, c.ret, Requeued(ds[k], c, states[i].pool.serials), Ok)
          else was.rt.pending.Some?
               && Outcome(now.rt, c.ret, if c.ret == NoMemory then was.rt.pending else None, NoMemory))
  {
    hide Inv, Step, TakesTurn, TopAt, Outcome, Requeued;
    FollowingKeeps(ds, states, schedule, i);
    FollowingKeeps(ds, states, schedule, j);
    CallbackReturns(ds, states[i], t, pc, c, states[i + 1], k);
    var commits := if pc == Starting then StartCommit else RetryCommit;
    OwnersAreLeftAlone(ds, states, schedule, i + 1, j, t, commits, k);
    CommitDecides(ds, states[j], t, commits, after, states[j + 1], k);
  }

  /** A job without a start callback is up as soon as it is called. */
  lemma MissingCallbackReturns(ds: seq<JobDesc>, s: State, t: Tid, pc: Pc, c: Choice, n: State, k: nat)
    requires Inv(ds, s) && |ds| == |s.jobs| && Step(ds, s, t, Advance(c)) == Some(n)
    requires TopAt(s, t, pc, k) && pc in {StartCall, RetryCall} && k < |ds| && !(ds[k].present && ds[k].start)
    ensures TopAt(n, t, if pc == StartCall then StartCommit else RetryCommit, k) && k < |n.jobs| == |s.jobs|
    ensures var e := s.jobs[k].epoch;
      n.jobs[k] == s.jobs[k].(log := s.jobs[k].log + [L.StartBegin(e), L.StartEnd(e, true)])
    ensures Top(n, t).ret == Ok && (pc == StartCall ==> Top(n, t).offered == None)
  {
    hide L.PhaseOf, GenerationOf, Inv, Step, Read;
    var effect := StepOf(ds, s, t, c, n);
    RunningFacts(ds, s, t, pc, k);
    var log, e := s.jobs[k].log, s.jobs[k].epoch;
    assert log + [L.StartBegin(e)] + [L.StartEnd(e, true)] == log + [L.StartBegin(e), L.StartEnd(e, true)];
  }

  /** The same, over every schedule, for a job without a start callback: it runs. */
  lemma MissingCallbacksSettle(ds: seq<JobDesc>, states: seq<State>, schedule: seq<(Tid, Action)>, i: nat, j: nat,
                               t: Tid, pc: Pc, k: nat, c: Choice, after: Choice)
    requires Follows(ds, states, schedule) && Inv(ds, states[0]) && i < j < |schedule| && k < |ds|
    requires TopAt(states[i], t, pc, k) && pc in {StartCall, RetryCall} && !(ds[k].present && ds[k].start)
    requires schedule[i] == (t, Advance(c)) && schedule[j] == (t, Advance(after))
    requires forall x :: i < x < j ==> !TakesTurn(schedule[x], t)
    ensures var was, now := states[i].jobs[k], states[j + 1].jobs[k];
      && now.epoch == was.epoch && now.log == was.log + [L.StartBegin(was.epoch), L.StartEnd(was.epoch, true)]
      && Outcome(now.rt, Ok, None, Ok)
  {
    hide Inv, Step, TakesTurn, TopAt;
    FollowingKeeps(ds, states, schedule, i);
    FollowingKeeps(ds, states, schedule, j);
    MissingCallbackReturns(ds, states[i], t, pc, c, states[i + 1], k);
    var commits := if pc == StartCall then StartCommit else RetryCommit;
    OwnersAreLeftAlone(ds, states, schedule, i + 1, j, t, commits, k);
    CommitDecides(ds, states[j], t, commits, after, states[j + 1], k);
  }

  // ----- how long an outcome lasts -----

  /**
   The step is an accepted completion, a stop, or a start that is not refused, or it is the ticker's claim of a
   start that waits.
   */
  predicate Disturbs(ds: seq<JobDesc>, s: State, t: Tid, a: Action, k: nat)
    requires |ds| == |s.jobs| && k < |ds|
  {
    var rt := s.jobs[k].rt;
    || (a.WorkerMarks? && a.job == k)
    || (a.Advance? && TopAt(s, t, StopEnter, k))
    || (a.Advance? && TopAt(s, t, StartEnter, k) && ds[k].present
        && !(rt.callbackRefs > 0 && rt.callbackTask == Some(t)))
    || (a.Advance? && TopAt(s, t, RetryClaim, k) && rt.state == Waiting)
  }

  /** What a job's status shows of its last call, and the record queued for it. */
  predicate SameReport(was: Runtime, now: Runtime) {
    && now.state == was.state && now.lastError == was.lastError && now.generation == was.generation
    && now.busy == was.busy && now.pending == was.pending
  }

  lemma QuietStart(d: JobDesc, jb: Job, f: Frame, p: Pool, t: Tid, m: nat, c: Choice)
    requires !jb.rt.busy && f.pc == StartEnter
    requires !d.present || (jb.rt.callbackRefs > 0 && jb.rt.callbackTask == Some(t))
    ensures PerformStart(d, jb, f, p, t, m, c).job == jb
  {
    hide Discard, Move;
  }

  lemma QuietTick(d: JobDesc, jb: Job, f: Frame, p: Pool, t: Tid, m: nat, c: Choice, jobs: nat)
    requires !jb.rt.busy && OfTick(f.pc) && !Owns(f.pc) && !(f.pc == RetryClaim && jb.rt.state == Waiting)
    ensures var n := PerformTick(d, jb, f, p, t, m, c, jobs).job;
      n.epoch == jb.epoch && SameReport(jb.rt, n.rt)
  {
    hide Move, Finish, Read;
  }

  lemma QuietStep(ds: seq<JobDesc>, s: State, t: Tid, a: Action, n: State, k: nat)
    requires Inv(ds, s) && |ds| == |s.jobs| && k < |ds| && Step(ds, s, t, a) == Some(n)
    requires !s.jobs[k].rt.busy && !Disturbs(ds, s, t, a, k)
    ensures |n.jobs| == |ds| && n.jobs[k].epoch == s.jobs[k].epoch && SameReport(s.jobs[k].rt, n.jobs[k].rt)
  {
    hide PerformStart, PerformTick, JobOk, SameReport, Finish;
    Reports(s.jobs[k].rt);
    if a.Advance? {
      var m := |s.threads[t]| - 1;
      var f := s.threads[t][m];
      if f.job == k {
        NotOwned(ds, s, t, m);
        if OfTick(f.pc) {
          QuietTick(ds[k], s.jobs[k], f, s.pool, t, m, a.choice, |s.jobs|);
        } else if OfStart(f.pc) {
          QuietStart(ds[k], s.jobs[k], f, s.pool, t, m, a.choice);
        }
      }
    }
  }

  lemma Reports(rt: Runtime)
    ensures SameReport(rt, rt)
  {
  }

  lemma NotOwned(ds: seq<JobDesc>, s: State, t: Tid, m: nat)
    requires Inv(ds, s) && HasFrame(s, t, m) && |s.threads[t]| == m + 1
    ensures var f := s.threads[t][m];
      f.job < |s.jobs| && (!s.jobs[f.job].rt.busy ==> !Owns(f.pc))
  {
    hide L.PhaseOf, GenerationOf;
    Unfold(ds, s, t, m);
  }

  /**
   Over every schedule: what the status of a slot that is not busy shows, a failure with its error as well as a
   running or a waiting job, stays until the next completion that is accepted, stop, or start that is not
   refused, or until the ticker claims a start that waits.
   */
  lemma {:induction false} ReportsLast(ds: seq<JobDesc>, states: seq<State>, schedule: seq<(Tid, Action)>,
                                       i: nat, j: nat, k: nat)
    requires Follows(ds, states, schedule) && Inv(ds, states[0]) && i <= j < |states| && k < |ds|
    requires !states[i].jobs[k].rt.busy
    requires forall x :: i <= x < j ==> !Disturbs(ds, states[x], schedule[x].0, schedule[x].1, k)
    ensures states[j].jobs[k].epoch == states[i].jobs[k].epoch
    ensures SameReport(states[i].jobs[k].rt, states[j].jobs[k].rt)
    decreases j
  {
    hide Inv, Step, Disturbs;
    if i < j {
      ReportsLast(ds, states, schedule, i, j - 1, k);
      FollowingKeeps(ds, states, schedule, j - 1);
      var turn := schedule[j - 1];
      assert Step(ds, states[j - 1], turn.0, turn.1) == Some(states[j - 1 + 1]);
      QuietStep(ds, states[j - 1], turn.0, turn.1, states[j], k);
    }
  }
}
