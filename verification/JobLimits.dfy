/**
 Two things that look as if they always held and do not: each with the run that shows
 it and the exact condition over every run.
 */
module JobLimits {
  import opened Wrappers
  import opened JobRuntimes
  import opened JobProtocol
  import opened JobInvariant
  import opened JobSteps
  import opened JobTheorems
  import L = JobLifecycle

  // ----- a record is queued while the job waits -----

  /** A record is queued exactly if the job waits. */
  predicate Aligned(rt: Runtime) {
    rt.pending.Some? <==> rt.state == Waiting
  }

  /** A worker's completion is accepted although the job, started anew, waits. */
  predicate MarksWaiting(s: State, a: Action, k: nat) {
    a.WorkerMarks? && a.job == k && k < |s.jobs| && s.jobs[k].rt.state == Waiting
  }

  /** The step is the critical section of a start that is not refused, or of a stop. */
  predicate ClearsRecord(ds: seq<JobDesc>, s: State, t: Tid, a: Action, k: nat)
    requires |ds| == |s.jobs|
  {
    && a.Advance? && k < |s.jobs| && t < |s.threads| && s.threads[t] != []
    && var f := s.threads[t][|s.threads[t]| - 1];
       f.job == k && (f.pc == StopEnter || (f.pc == StartEnter && !StartRefused(s.jobs[k].rt, ds[k], t)))
  }

  lemma StartAligns(d: JobDesc, jb: Job, f: Frame, p: Pool, t: Tid, m: nat, c: Choice,
                    of: Option<Frame>, tf: Option<Frame>)
    requires JobOk(d, jb, of, tf) && Sees(jb, f, t, m, of, tf) && OfStart(f.pc)
    ensures var rt := PerformStart(d, jb, f, p, t, m, c).job.rt;
      if f.pc == StartEnter && !StartRefused(jb.rt, d, t) then Aligned(rt) else Aligned(rt) <==> Aligned(jb.rt)
  {
    hide L.PhaseOf, GenerationOf, NextGeneration, Move, Finish, Discard, Enqueue, Alloc;
  }

  lemma StopAligns(d: JobDesc, jb: Job, f: Frame, p: Pool, t: Tid, m: nat, of: Option<Frame>, tf: Option<Frame>)
    requires JobOk(d, jb, of, tf) && Sees(jb, f, t, m, of, tf) && OfStop(f.pc)
    ensures var rt := PerformStop(d, jb, f, p, t, m).job.rt;
      if f.pc == StopEnter then Aligned(rt) else Aligned(rt) <==> Aligned(jb.rt)
  {
    hide L.PhaseOf, GenerationOf, NextGeneration, Move, Finish;
  }

  lemma TickAligns(d: JobDesc, jb: Job, f: Frame, p: Pool, t: Tid, m: nat, c: Choice, jobs: nat,
                   of: Option<Frame>, tf: Option<Frame>)
    requires JobOk(d, jb, of, tf) && Sees(jb, f, t, m, of, tf) && OfTick(f.pc)
    ensures Aligned(PerformTick(d, jb, f, p, t, m, c, jobs).job.rt) <==> Aligned(jb.rt)
  {
    hide L.PhaseOf, GenerationOf, Move, Finish, Read;
  }

  lemma AdvanceAligns(ds: seq<JobDesc>, s: State, t: Tid, c: Choice, k: nat)
    requires Inv(ds, s) && k < |s.jobs| && Step(ds, s, t, Advance(c)).Some?
    ensures var n := Step(ds, s, t, Advance(c)).value;
      && k < |n.jobs|
      && (if ClearsRecord(ds, s, t, Advance(c), k) then Aligned(n.jobs[k].rt)
          else Aligned(n.jobs[k].rt) <==> Aligned(s.jobs[k].rt))
  {
    hide PerformStart, PerformStop, PerformTick, JobOk, Sees, Aligned, StartRefused;
    var m := |s.threads[t]| - 1;
    var f := s.threads[t][m];
    if f.job == k {
      Unfold(ds, s, t, m);
      var d, jb, of, tf := ds[k], s.jobs[k], OwnerFrame(s, k), TickFrame(s, k);
      if OfStart(f.pc) {
        StartAligns(d, jb, f, s.pool, t, m, c, of, tf);
      } else if OfStop(f.pc) {
        StopAligns(d, jb, f, s.pool, t, m, of, tf);
      } else {
        TickAligns(d, jb, f, s.pool, t, m, c, |s.jobs|, of, tf);
      }
    }
  }

  /**
   A record is left behind by one kind of step only, a completion that is accepted while
   the job waits, and once left behind it is taken up by the next start or stop only.
   */
  lemma RecordsAreLeftBehindExactly(ds: seq<JobDesc>, s: State, t: Tid, a: Action, n: State, k: nat)
    requires Inv(ds, s) && k < |s.jobs| && Step(ds, s, t, a) == Some(n)
    ensures k < |n.jobs|
    ensures Aligned(s.jobs[k].rt) ==> (Aligned(n.jobs[k].rt) <==> !MarksWaiting(s, a, k))
    ensures !Aligned(s.jobs[k].rt) ==> (Aligned(n.jobs[k].rt) <==> ClearsRecord(ds, s, t, a, k))
  {
    assert SlotOk(ds, s, k);
    if a.Advance? {
      AdvanceAligns(ds, s, t, a.choice, k);
    }
  }

  /** What holds at first and is lost in just the marked steps holds throughout if no step is marked. */
  lemma {:induction false} LostWhenMarked(holds: seq<bool>, marked: seq<bool>)
    requires |holds| == |marked| + 1 && holds[0]
    requires forall i :: 0 <= i < |marked| && holds[i] ==> (holds[i + 1] <==> !marked[i])
    ensures (forall i :: 0 <= i < |holds| ==> holds[i]) <==> (forall i :: 0 <= i < |marked| ==> !marked[i])
  {
    if marked != [] {
      var n := |marked| - 1;
      var before, others := holds[..n + 1], marked[..n];
      LostWhenMarked(before, others);
      assert holds == before + [holds[n + 1]] && marked == others + [marked[n]];
      assert (forall i :: 0 <= i < |holds| ==> holds[i]) <==>
             holds[n + 1] && forall i :: 0 <= i < |before| ==> before[i];
      assert (forall i :: 0 <= i < |marked| ==> !marked[i]) <==>
             !marked[n] && forall i :: 0 <= i < |others| ==> !others[i];
      assert before[n] == holds[n];
    }
  }

  /**
   Over every schedule: a job waits exactly while a record is queued, in all states, if and
   only if no completion was accepted while it waited.
   */
  lemma JobsWaitExactlyWhileQueued(ds: seq<JobDesc>, states: seq<State>, schedule: seq<(Tid, Action)>, k: nat)
    requires Follows(ds, states, schedule) && Inv(ds, states[0]) && k < |ds| && Aligned(states[0].jobs[k].rt)
    ensures (forall i :: 0 <= i < |states| ==> Aligned(states[i].jobs[k].rt))
       <==> (forall i :: 0 <= i < |schedule| ==> !MarksWaiting(states[i], schedule[i].1, k))
  {
    hide Inv, Step, Aligned, MarksWaiting;
    var holds := seq(|states|, i requires 0 <= i < |states| => Aligned(states[i].jobs[k].rt));
    var marked := seq(|schedule|, i requires 0 <= i < |schedule| => MarksWaiting(states[i], schedule[i].1, k));
    forall i | 0 <= i < |schedule| && holds[i]
      ensures holds[i + 1] <==> !marked[i]
    {
      FollowingKeeps(ds, states, schedule, i);
      RecordsAreLeftBehindExactly(ds, states[i], schedule[i].0, schedule[i].1, states[i + 1], k);
    }
    LostWhenMarked(holds, marked);
    assert forall i :: 0 <= i < |states| ==> holds[i] == Aligned(states[i].jobs[k].rt);
    assert forall i :: 0 <= i < |schedule| ==> marked[i] == MarksWaiting(states[i], schedule[i].1, k);
  }

  // ----- no event after a completion -----

  lemma StartLogs(d: JobDesc, jb: Job, f: Frame, p: Pool, t: Tid, m: nat, c: Choice)
    requires OfStart(f.pc)
    ensures jb.log <= PerformStart(d, jb, f, p, t, m, c).job.log
  {
    hide Move, Finish, Discard, Enqueue, Alloc, ClaimStart, CommitStart, QueueStart;
  }

  lemma StopLogs(d: JobDesc, jb: Job, f: Frame, p: Pool, t: Tid, m: nat)
    requires OfStop(f.pc)
    ensures jb.log <= PerformStop(d, jb, f, p, t, m).job.log
  {
    hide Move, Finish, ClaimStop, CancelStart, FinishStop;
  }

  lemma TickLogs(d: JobDesc, jb: Job, f: Frame, p: Pool, t: Tid, m: nat, c: Choice, jobs: nat)
    requires OfTick(f.pc)
    ensures jb.log <= PerformTick(d, jb, f, p, t, m, c, jobs).job.log
  {
    hide EnterCallback, DropCallback, TakeDeferredStop, CreditTick, CommitRetry, ClaimRetry, FinishStop,
         Move, Finish, Read;
  }

  /** Logs are never rewritten. */
  lemma StepLogs(ds: seq<JobDesc>, s: State, t: Tid, a: Action, n: State, k: nat)
    requires |ds| == |s.jobs| && k < |s.jobs| && Step(ds, s, t, a) == Some(n)
    ensures |n.jobs| == |s.jobs| && s.jobs[k].log <= n.jobs[k].log
  {
    hide PerformStart, PerformStop, PerformTick;
    if a.Advance? {
      var m := |s.threads[t]| - 1;
      var f := s.threads[t][m];
      if OfStart(f.pc) {
        StartLogs(ds[f.job], s.jobs[f.job], f, s.pool, t, m, a.choice);
      } else if OfStop(f.pc) {
        StopLogs(ds[f.job], s.jobs[f.job], f, s.pool, t, m);
      } else {
        TickLogs(ds[f.job], s.jobs[f.job], f, s.pool, t, m, a.choice, |s.jobs|);
      }
    }
  }

  lemma {:induction false} LogsGrow(ds: seq<JobDesc>, states: seq<State>, i: nat, j: nat, k: nat)
    requires Run(ds, states) && i <= j < |states| && k < |ds|
    ensures |states[i].jobs| == |states[j].jobs| == |ds| && states[i].jobs[k].log <= states[j].jobs[k].log
    decreases j - i
  {
    RunKeeps(ds, states, i);
    if i < j {
      assert Moves(ds, states[i], states[i + 1]);
      var t, a :| Step(ds, states[i], t, a) == Some(states[i + 1]);
      StepLogs(ds, states[i], t, a, states[i + 1], k);
      LogsGrow(ds, states, i + 1, j, k);
    }
  }

  /** The ticker has admitted an event of job k and is about to call its callback. */
  predicate EventIsDue(s: State, k: nat) {
    HasFrame(s, TICKER, 0) && s.threads[TICKER][0].job == k && s.threads[TICKER][0].pc == CallEvent
  }

  /** On a running slot that a completion finds, the log ends in an admission exactly while that event is due. */
  lemma DueEventsAreAdmittedLast(ds: seq<JobDesc>, s: State, k: nat)
    requires Inv(ds, s) && k < |s.jobs| && s.jobs[k].rt.state == Running && !s.jobs[k].rt.busy
    ensures L.Serial(s.jobs[k].log)
    ensures L.PhaseOf(s.jobs[k].log) == L.Handling(s.jobs[k].epoch, true, false) <==> EventIsDue(s, k)
    ensures EventIsDue(s, k) ==> s.jobs[k].rt.callbackRefs != 0
  {
    hide L.PhaseOf, GenerationOf;
    assert SlotOk(ds, s, k);
  }

  /**
   Over every run: after a completion that was accepted while the job ran, one more event
   callback of that incarnation can begin, and just when the ticker had admitted it already.
   A completion that finds no callback in flight is never followed by one.
   */
  lemma EventsBeginAfterACompletionExactly(ds: seq<JobDesc>, states: seq<State>, i: nat, j: nat,
                                           t: Tid, k: nat, g: nat, err: Status)
    requires Run(ds, states) && i < j < |states| && k < |ds| && |states[i].jobs| == |ds|
    requires states[i].jobs[k].rt.state == Running
    requires Step(ds, states[i], t, WorkerMarks(k, g, err)) == Some(states[i + 1])
    ensures |states[j].jobs| == |ds|
    ensures var before, log, e := states[i].jobs[k].log, states[j].jobs[k].log, states[i].jobs[k].epoch;
      && ((exists n :: |before| < n < |log| && log[n] == L.EventBegin(e))
          <==> EventIsDue(states[i], k) && |log| > |before| + 1)
      && (states[i].jobs[k].rt.callbackRefs == 0 ==>
            forall n :: |before| < n < |log| ==> log[n] != L.EventBegin(e))
  {
    var before, e := states[i].jobs[k].log, states[i].jobs[k].epoch;
    RunKeeps(ds, states, i);
    DueEventsAreAdmittedLast(ds, states[i], k);
    assert states[i + 1].jobs[k].log == before + [L.Retire(e)];
    LogsGrow(ds, states, i + 1, j, k);
    RunsAreSerial(ds, states, j, k);
    var log := states[j].jobs[k].log;
    EventsBehind(before, e, log);
  }

  lemma EventsBehind(before: seq<L.Event>, e: nat, log: seq<L.Event>)
    requires L.Serial(before) && L.Serial(log) && before + [L.Retire(e)] <= log
    ensures (exists n :: |before| < n < |log| && log[n] == L.EventBegin(e))
       <==> L.PhaseOf(before) == L.Handling(e, true, false) && |log| > |before| + 1
  {
    hide L.PhaseOf, L.Serial;
    var r := |before|;
    assert log[..r] == before && log[r] == L.Retire(e);
    L.EventsAfterAnEnd(log, r);
    L.AdmittedLast(before);
  }

  // ----- the runs -----

  lemma PutAlone(s: State, e: Effect)
    requires |s.jobs| == 1 && |s.threads| == 1
    ensures Put(s, 0, 0, 0, e) == State([e.job], [Opt(e.frame)], e.pool)
  {
    assert s.threads[0][..0] + Opt(e.frame) == Opt(e.frame);
  }

  const EMPTY := Pool(map[], 0, 0, 0, 0, 0, false)

  /** A manager with one job and one thread, which runs `f` or is outside. */
  function Alone(jb: Job, f: Option<Frame>, p: Pool): State {
    State([jb], [Opt(f)], p)
  }

  /** A run of that manager ends in such a state. */
  ghost predicate RunsTo(d: JobDesc, states: seq<State>, jb: Job, f: Option<Frame>, p: Pool) {
    Run([d], states) && states[|states| - 1] == Alone(jb, f, p)
  }

  lemma RunOn(d: JobDesc, states: seq<State>, n: State)
    requires Run([d], states) && Moves([d], states[|states| - 1], n)
    ensures Run([d], states + [n])
  {
    var longer := states + [n];
    forall i | 0 <= i < |longer| - 1
      ensures Moves([d], longer[i], longer[i + 1])
    {
      assert i < |states| - 1 ==> Moves([d], states[i], states[i + 1]);
    }
  }

  lemma RunStarts(d: JobDesc)
    ensures RunsTo(d, [Alone(Job(InitRuntime(), Nobody, 0, []), None, EMPTY)],
                   Job(InitRuntime(), Nobody, 0, []), None, EMPTY)
  {
    assert InitState(1, 1) == Alone(Job(InitRuntime(), Nobody, 0, []), None, EMPTY);
    assert |[d]| == 1;
  }

  lemma AdvanceAlone(d: JobDesc, states: seq<State>, jb: Job, f: Frame, p: Pool, c: Choice, e: Effect)
    returns (longer: seq<State>)
    requires RunsTo(d, states, jb, Some(f), p) && f.job == 0 && Free(p, c.alloc)
    requires e == Perform(d, jb, f, p, 0, 0, c, 1)
    ensures RunsTo(d, longer, e.job, e.frame, e.pool)
  {
    hide Run, Perform;
    var s, n := Alone(jb, Some(f), p), Alone(e.job, e.frame, e.pool);
    PutAlone(s, e);
    assert Step([d], s, 0, Advance(c)) == Some(n);
    RunOn(d, states, n);
    longer := states + [n];
  }

  lemma CallAlone(d: JobDesc, states: seq<State>, jb: Job, p: Pool, f: Frame, a: Action, q: Pool)
    returns (longer: seq<State>)
    requires RunsTo(d, states, jb, None, p)
    requires (a == CallTick && f == NewFrame(TickRetry, 0, None) && q == p)
             || (a == CallStart(0, None) && f == NewFrame(StartEnter, 0, None) && q == p)
             || (a.CallStart? && a.job == 0 && a.alloc.Some? && a.alloc.value !in p.live
                 && f == NewFrame(StartEnter, 0, Some(Ptr(a.alloc.value, p.serials)))
                 && q == Alloc(p, a.alloc.value, InFrame(0, 0)))
    ensures RunsTo(d, longer, jb, Some(f), q)
  {
    hide Run;
    var s, n := Alone(jb, None, p), Alone(jb, Some(f), q);
    PutAlone(s, Effect(Some(f), jb, q));
    assert Step([d], s, 0, a) == Some(n);
    RunOn(d, states, n);
    longer := states + [n];
  }

  lemma MarkAlone(d: JobDesc, states: seq<State>, jb: Job, f: Option<Frame>, p: Pool) returns (longer: seq<State>)
    requires RunsTo(d, states, jb, f, p) && MarkAccepted(jb.rt, 1)
    ensures RunsTo(d, longer, Marked(jb, Ok), f, p)
  {
    hide Run;
    var s, n := Alone(jb, f, p), Alone(Marked(jb, Ok), f, p);
    assert s.jobs[0 := Marked(jb, Ok)] == [Marked(jb, Ok)];
    assert Step([d], s, 0, WorkerMarks(0, 1, Ok)) == Some(n);
    RunOn(d, states, n);
    longer := states + [n];
  }

  /** The slot of a job that the first start has claimed. */
  function ClaimedFirst(): Job {
    Job(Runtime(Stopped, Ok, 1, 0, 0, None, false, true, None), Thread(0, 0), 1, [])
  }

  /** A first start up to the point where it has released what it took from the slot. */
  lemma FirstStartReleases(d: JobDesc, addr: Option<nat>) returns (states: seq<State>, f: Frame, p: Pool)
    requires d.present
    ensures p == if addr.Some? then Alloc(EMPTY, addr.value, InFrame(0, 0)) else EMPTY
    ensures f == NewFrame(if addr.Some? then StartQueue else StartCall, 0,
                          if addr.Some? then Some(Ptr(addr.value, 0)) else None).(generation := 1)
    ensures RunsTo(d, states, ClaimedFirst(), Some(f), p)
  {
    hide RunsTo, L.PhaseOf;
    var j0 := Job(InitRuntime(), Nobody, 0, []);
    RunStarts(d);
    p := if addr.Some? then Alloc(EMPTY, addr.value, InFrame(0, 0)) else EMPTY;
    var f1 := NewFrame(StartEnter, 0, if addr.Some? then Some(Ptr(addr.value, 0)) else None);
    states := CallAlone(d, [Alone(j0, None, EMPTY)], j0, EMPTY, f1, CallStart(0, addr), p);
    var f2 := f1.(pc := StartWait, generation := 1);
    assert ClaimStart(InitRuntime()) == ClaimedFirst().rt;
    states := AdvanceAlone(d, states, j0, f1, p, PLAIN, Effect(Some(f2), ClaimedFirst(), p));
    var f3 := f2.(pc := StartRelease);
    states := AdvanceAlone(d, states, ClaimedFirst(), f2, p, PLAIN, Effect(Some(f3), ClaimedFirst(), p));
    f := f2.(pc := if addr.Some? then StartQueue else StartCall);
    states := AdvanceAlone(d, states, ClaimedFirst(), f3, p, PLAIN, Effect(Some(f), ClaimedFirst(), p));
  }

  /**
   A queued record does not mean that the job waits: a worker that marks a
   waiting job stopped leaves the record behind.
   */
  lemma AStoppedJobMayKeepAQueuedStart() returns (ds: seq<JobDesc>, states: seq<State>)
    ensures Run(ds, states)
    ensures var s := states[|states| - 1];
      |s.jobs| == 1 && s.jobs[0].rt.state == Stopped && s.jobs[0].rt.pending.Some?
  {
    var d := JobDesc(true, true, true, false, true);
    ds := [d];
    var f, p;
    states, f, p := FirstStartReleases(d, Some(7));
    var r, q := Ptr(7, 0), Enqueue(p, Ptr(7, 0), 0);
    var queued := Job(Runtime(Waiting, Ok, 1, 0, 0, None, false, false, Some(r)), Nobody, 1, []);
    states := AdvanceAlone(d, states, ClaimedFirst(), f, p, PLAIN, Effect(None, queued, q));
    states := MarkAlone(d, states, queued, None, q);
  }

  /**
   Nor does a completion that was accepted keep events away: a callback that a tick
   has admitted may begin after a worker has marked the job stopped.
   */
  lemma AnEventMayBeginAfterACompletion() returns (ds: seq<JobDesc>, states: seq<State>)
    ensures Run(ds, states)
    ensures var s := states[|states| - 1];
      |s.jobs| == 1 && s.jobs[0].rt.state == Stopped
      && s.jobs[0].log == [L.StartBegin(1), L.StartEnd(1, true), L.Admit(1), L.Retire(1), L.EventBegin(1)]
  {
    var d := JobDesc(true, false, false, true, false);
    ds := [d];
    var f, p;
    states, f, p := FirstStartReleases(d, None);
    var running, tick, log;
    states, running := FirstStartRuns(d, states, f, p);
    states, running, tick := FirstTickAdmits(d, states, running, p);
    states := MarkAlone(d, states, running, Some(tick), p);
    var marked := Marked(running, Ok);
    log := marked.log + [L.EventBegin(1)];
    states := AdvanceAlone(d, states, marked, tick, p, PLAIN,
                           Effect(Some(tick.(pc := Eventing)), marked.(log := log), p));
  }

  lemma FirstStartRuns(d: JobDesc, before: seq<State>, f: Frame, p: Pool) returns (states: seq<State>, jb: Job)
    requires !d.HasStart() && f == NewFrame(StartCall, 0, None).(generation := 1)
    requires RunsTo(d, before, ClaimedFirst(), Some(f), p)
    ensures jb == Job(Runtime(Running, Ok, 1, 0, 0, None, false, false, None), Nobody, 1,
                      [L.StartBegin(1), L.StartEnd(1, true)])
    ensures RunsTo(d, states, jb, None, p)
  {
    hide RunsTo, L.PhaseOf;
    var called := ClaimedFirst().(log := [L.StartBegin(1), L.StartEnd(1, true)]);
    var g := f.(pc := StartCommit, ret := Ok);
    states := AdvanceAlone(d, before, ClaimedFirst(), f, p, PLAIN, Effect(Some(g), called, p));
    jb := called.(rt := CommitStart(called.rt, Ok, None), owner := Nobody);
    states := AdvanceAlone(d, states, called, g, p, PLAIN, Effect(None, jb, p));
  }

  lemma FirstTickAdmits(d: JobDesc, before: seq<State>, jb: Job, p: Pool)
    returns (states: seq<State>, admitted: Job, f: Frame)
    requires d.HasEvent() && jb.rt.state == Running && !jb.rt.busy && RunsTo(d, before, jb, None, p)
    ensures admitted == jb.(log := jb.log + [L.Admit(jb.epoch)], rt := EnterCallback(jb.rt, 0))
    ensures f == NewFrame(CallEvent, 0, None).(generation := jb.rt.generation, epoch := jb.epoch)
    ensures RunsTo(d, states, admitted, Some(f), p)
  {
    hide RunsTo, L.PhaseOf;
    var f1 := NewFrame(TickRetry, 0, None);
    states := CallAlone(d, before, jb, p, f1, CallTick, p);
    var f2 := f1.(pc := TickDispatch);
    states := AdvanceAlone(d, states, jb, f1, p, PLAIN, Effect(Some(f2), jb, p));
    f := NewFrame(CallEvent, 0, None).(generation := jb.rt.generation, epoch := jb.epoch);
    admitted := jb.(log := jb.log + [L.Admit(jb.epoch)], rt := EnterCallback(jb.rt, 0));
    states := AdvanceAlone(d, states, jb, f2, p, PLAIN.(due := true), Effect(Some(f), admitted, p));
  }
}
