/**
 The inductive invariant of the job protocol and the rule that carries it
 across a step: a step touches one slot, one frame and the records these two
 hold, so only they need to be looked at.
 */
module JobInvariant {
  import opened Wrappers
  import opened JobRuntimes
  import opened JobProtocol
  import L = JobLifecycle

  // ----- records and their accounting -----

  function QueuedRecords(live: map<nat, Record>): set<nat> {
    set a | a in live && live[a].queued
  }

  ghost predicate PoolOk(p: Pool) {
    && !p.fault
    && p.waiting == |QueuedRecords(p.live)|
    && p.queuedStarts == p.waiting + p.waitSuccesses + p.waitCancellations
  }

  /** The record behind `r` is live and held by `h`. */
  predicate Held(p: Pool, r: Option<Ptr>, h: Holder, queued: bool) {
    r.Some? ==> r.value.addr in p.live && p.live[r.value.addr] == Record(r.value.serial, h, queued)
  }

  lemma AllocKeeps(p: Pool, a: nat, h: Holder)
    requires PoolOk(p) && a !in p.live
    ensures PoolOk(Alloc(p, a, h))
  {
    assert QueuedRecords(Alloc(p, a, h).live) == QueuedRecords(p.live);
  }

  lemma DiscardKeeps(p: Pool, r: Option<Ptr>, h: Holder)
    requires PoolOk(p) && Held(p, r, h, false)
    ensures PoolOk(Discard(p, r))
  {
    assert QueuedRecords(Discard(p, r).live) == QueuedRecords(p.live);
  }

  lemma MoveKeeps(p: Pool, r: Option<Ptr>, from: Holder, to: Holder)
    requires PoolOk(p) && Held(p, r, from, true)
    ensures PoolOk(Move(p, r, to)) && Held(Move(p, r, to), r, to, true)
  {
    assert QueuedRecords(Move(p, r, to).live) == QueuedRecords(p.live);
  }

  lemma EnqueueKeeps(p: Pool, r: Ptr, h: Holder, k: nat)
    requires PoolOk(p) && Held(p, Some(r), h, false)
    ensures PoolOk(Enqueue(p, r, k)) && Held(Enqueue(p, r, k), Some(r), InSlot(k), true)
  {
    assert QueuedRecords(Enqueue(p, r, k).live) == QueuedRecords(p.live) + {r.addr};
  }

  lemma FinishKeeps(p: Pool, r: Option<Ptr>, h: Holder, launched: bool)
    requires PoolOk(p) && Held(p, r, h, true)
    ensures PoolOk(Finish(p, r, launched))
  {
    if r.Some? {
      var a := r.value.addr;
      assert a in QueuedRecords(p.live);
      assert QueuedRecords(Finish(p, r, launched).live) == QueuedRecords(p.live) - {a};
    }
  }

  // ----- one slot -----

  /**
   The phase a slot is in when no lifecycle callback runs: up, or with an event
   admitted, if incarnation `e` is live, otherwise idle with nothing newer than
   `bound` (or waiting for the dead incarnation's last event to return).
   */
  predicate Settled(ph: L.Phase, handling: bool, live: bool, e: nat, bound: nat) {
    if live then (if handling then ph.Handling? && ph.alive && ph.epoch == e else ph == L.Up(e))
    else if handling then ph.Handling? && !ph.alive && ph.epoch <= bound
    else ph.Idle? && ph.last <= bound
  }

  predicate IdleBefore(ph: L.Phase, e: nat) {
    ph.Idle? && ph.last < e
  }

  /** What the owning frame `f` of thread `t` knows about its slot. */
  predicate OwnerOk(jb: Job, ph: L.Phase, handling: bool, f: Frame, t: Tid) {
    var rt, e := jb.rt, jb.epoch;
    && e > 0
    && f.generation == rt.generation
    && (if f.pc in {RetryCall, RetryStarting, RetryCommit}
        then rt.state == Waiting && rt.pending == Some(f.seen)
        else rt.state == Stopped && rt.pending == None)
    && (f.pc in {StartWait, StopWait} || rt.callbackRefs == 0)
    && match f.pc
       case StartWait => Settled(ph, handling, f.callStop, e - 1, e - 1) && (t == TICKER ==> rt.callbackRefs == 0)
       case StopWait => Settled(ph, handling, f.callStop, e - 1, e - 1) && (t == TICKER ==> rt.callbackRefs == 0)
       case StartCallStop => ph == L.Up(e - 1)
       case StopCallStop => ph == L.Up(e - 1)
       case DeferCallStop => ph == L.Up(e - 1)
       case StartStopping => ph == L.Stopping(e - 1)
       case StopStopping => ph == L.Stopping(e - 1)
       case DeferStopping => ph == L.Stopping(e - 1)
       case Starting => ph.Starting? && ph.epoch == e && ph.last < e
       case RetryStarting => ph.Starting? && ph.epoch == e && ph.last < e
       case StartCommit => (if f.ret == Ok then ph == L.Up(e) else IdleBefore(ph, e))
                           && (f.offered.Some? ==> f.ret == NoMemory)
       case RetryCommit => if f.ret == Ok then ph == L.Up(e) else IdleBefore(ph, e)
       case _ => IdleBefore(ph, e)
  }

  /** What the ticker's frame `f` knows about the slot it watches. */
  predicate WatcherOk(jb: Job, ph: L.Phase, f: Frame) {
    && f.generation == GenerationOf(f.epoch)
    && match f.pc
       case RetryClaim =>
         && 0 < f.epoch <= jb.epoch
         && (f.epoch == jb.epoch ==>
               && jb.owner == Nobody
               && jb.rt.state in {Waiting, Stopped}
               && (jb.rt.pending == None || jb.rt.pending == Some(f.seen)))
       case CallEvent => ph.Handling? && ph.epoch == f.epoch && !ph.begun
       case Eventing => ph.Handling? && ph.epoch == f.epoch && ph.begun
       case TickEnd => ph == L.Up(f.epoch) || ph.Idle?
       case _ => true
  }

  predicate JobOk(d: JobDesc, jb: Job, of: Option<Frame>, tf: Option<Frame>) {
    var rt, ph := jb.rt, L.PhaseOf(jb.log);
    var handling := tf.Some? && tf.value.pc in {CallEvent, Eventing};
    var inTick := tf.Some? && tf.value.pc in {CallEvent, Eventing, TickEnd};
    && rt.generation == GenerationOf(jb.epoch)
    && rt.callbackRefs == (if inTick then 1 else 0)
    && rt.callbackTask == (if inTick then Some(TICKER) else None)
    && (rt.busy <==> jb.owner != Nobody)
    && (rt.stopAfterCallback <==> jb.owner == Deferred)
    && (rt.state == Waiting ==> rt.pending.Some? && rt.callbackRefs == 0 && jb.epoch > 0)
    && (rt.state in {Running, Failed} ==> rt.pending == None)
    && (tf.Some? ==> WatcherOk(jb, ph, tf.value))
    && match jb.owner
       case Nobody =>
         && of == None
         && Settled(ph, handling, rt.state == Running, jb.epoch, jb.epoch)
         && (rt.state == Waiting ==> IdleBefore(ph, jb.epoch))
       case Deferred =>
         && of == None && inTick && tf.value.pc != CallEvent && jb.epoch > 0
         && rt.state == Stopped && rt.pending == None
         && Settled(ph, handling, d.HasStop(), jb.epoch - 1, jb.epoch - 1)
       case Thread(t, _) =>
         of.Some? && Owns(of.value.pc) && OwnerOk(jb, ph, handling, of.value, t)
  }

  // ----- the whole machine -----

  predicate HasFrame(s: State, t: Tid, d: nat) {
    t < |s.threads| && d < |s.threads[t]|
  }

  function OwnerFrame(s: State, k: nat): Option<Frame>
    requires k < |s.jobs|
  {
    match s.jobs[k].owner
    case Thread(t, d) => if HasFrame(s, t, d) then Some(s.threads[t][d]) else None
    case _ => None
  }

  /** The ticker's bottom frame, if it watches slot k. */
  function TickFrame(s: State, k: nat): Option<Frame> {
    if HasFrame(s, TICKER, 0) && s.threads[TICKER][0].job == k && Watches(s.threads[TICKER][0].pc)
    then Some(s.threads[TICKER][0]) else None
  }

  predicate MayOffer(pc: Pc) {
    pc in {StartEnter, StartWait, StartCallStop, StartStopping, StartRelease, StartQueue, StartCommit}
  }

  predicate MayTake(pc: Pc) {
    pc in {StartWait, StartCallStop, StartStopping, StartRelease, StopFree, RetryFree}
  }

  predicate FrameOk(s: State, t: Tid, d: nat)
    requires HasFrame(s, t, d)
  {
    var f := s.threads[t][d];
    && f.job < |s.jobs|
    && (Owns(f.pc) <==> s.jobs[f.job].owner == Thread(t, d))
    && (OfTick(f.pc) ==> t == TICKER && d == 0)
    && (d + 1 < |s.threads[t]| ==> InCallback(f.pc))
    && (f.offered.Some? ==> MayOffer(f.pc))
    && (f.pc == StartQueue ==> f.offered.Some?)
    && (f.taken.Some? ==> MayTake(f.pc))
    && Held(s.pool, f.offered, InFrame(t, d), false)
    && Held(s.pool, f.taken, InFrame(t, d), true)
  }

  predicate SlotOk(ds: seq<JobDesc>, s: State, k: nat)
    requires |ds| == |s.jobs| && k < |s.jobs|
  {
    && JobOk(ds[k], s.jobs[k], OwnerFrame(s, k), TickFrame(s, k))
    && (OwnerFrame(s, k).Some? ==> OwnerFrame(s, k).value.job == k)
    && Held(s.pool, s.jobs[k].rt.pending, InSlot(k), true)
  }

  predicate PointsAt(r: Option<Ptr>, a: nat) {
    r.Some? && r.value.addr == a
  }

  /** Whoever a live record says it is held by does hold it. */
  predicate RecordOk(s: State, a: nat)
    requires a in s.pool.live
  {
    match s.pool.live[a].holder
    case InSlot(k) => k < |s.jobs| && PointsAt(s.jobs[k].rt.pending, a)
    case InFrame(t, d) =>
      HasFrame(s, t, d) && (PointsAt(s.threads[t][d].offered, a) || PointsAt(s.threads[t][d].taken, a))
  }

  ghost predicate Inv(ds: seq<JobDesc>, s: State) {
    && |ds| == |s.jobs|
    && |s.threads| > 0
    && (forall k :: 0 <= k < |s.jobs| ==> SlotOk(ds, s, k))
    && (forall t, d :: HasFrame(s, t, d) ==> FrameOk(s, t, d))
    && (forall a :: a in s.pool.live ==> RecordOk(s, a))
    && PoolOk(s.pool)
  }

  // ----- the step rule -----

  /** A record that neither slot k nor frame (t, m) holds. */
  predicate Elsewhere(p: Pool, a: nat, t: Tid, m: nat, k: nat) {
    a in p.live && p.live[a].holder != InSlot(k) && p.live[a].holder != InFrame(t, m)
  }

  /** The step at frame (t, m) on slot k leaves other records alone. */
  ghost predicate LocalRecords(p: Pool, q: Pool, t: Tid, m: nat, k: nat) {
    && (forall a :: Elsewhere(p, a, t, m, k) ==> a in q.live && q.live[a] == p.live[a])
    && (forall a :: Elsewhere(q, a, t, m, k) ==> a in p.live && p.live[a] == q.live[a])
  }

  /** Frame (t, m) is the top of its stack, or the place for a call from a callback. */
  predicate AtTop(s: State, t: Tid, m: nat, k: nat) {
    && t < |s.threads| && k < |s.jobs|
    && m <= |s.threads[t]| <= m + 1
    && (|s.threads[t]| == m + 1 ==> s.threads[t][m].job == k)
    && (|s.threads[t]| == m > 0 ==> InCallback(s.threads[t][m - 1].pc))
  }

  /** The parts of the invariant that mention what the step changed. */
  ghost predicate StepOk(ds: seq<JobDesc>, s: State, t: Tid, m: nat, k: nat, e: Effect)
    requires |ds| == |s.jobs| && AtTop(s, t, m, k)
  {
    var n := Put(s, t, m, k, e);
    var was := s.jobs[k].owner;
    && (e.frame.Some? ==> e.frame.value.job == k || e.frame.value.pc == TickRetry)
    && (e.job.owner == was
        || ((was.Thread? ==> was == Thread(t, m)) && (e.job.owner.Thread? ==> e.job.owner == Thread(t, m))))
    && (e.job.owner == Thread(t, m) ==> e.frame.Some? && e.frame.value.job == k)
    && SlotOk(ds, n, k)
    && (e.frame.Some? ==> FrameOk(n, t, m))
    && PoolOk(e.pool)
    && LocalRecords(s.pool, e.pool, t, m, k)
    && (forall a :: a in e.pool.live && !Elsewhere(e.pool, a, t, m, k) ==> RecordOk(n, a))
  }

  lemma PutFrames(s: State, t: Tid, m: nat, k: nat, e: Effect, u: Tid, d: nat)
    requires AtTop(s, t, m, k)
    ensures var n := Put(s, t, m, k, e);
      && (HasFrame(n, u, d) && (u != t || d != m) ==> HasFrame(s, u, d))
      && (HasFrame(s, u, d) && (u != t || d != m) ==> HasFrame(n, u, d) && n.threads[u][d] == s.threads[u][d])
      && (HasFrame(n, t, m) <==> e.frame.Some?)
      && (e.frame.Some? ==> n.threads[t][m] == e.frame.value)
  {
  }

  lemma OtherSlotsKept(ds: seq<JobDesc>, s: State, t: Tid, m: nat, k: nat, e: Effect, j: nat)
    requires Inv(ds, s) && AtTop(s, t, m, k) && StepOk(ds, s, t, m, k, e)
    requires j < |s.jobs| && j != k
    ensures SlotOk(ds, Put(s, t, m, k, e), j)
  {
    var n := Put(s, t, m, k, e);
    assert SlotOk(ds, s, j);
    PutFrames(s, t, m, k, e, TICKER, 0);
    assert TickFrame(n, j) == TickFrame(s, j);
    if s.jobs[j].owner.Thread? {
      PutFrames(s, t, m, k, e, s.jobs[j].owner.tid, s.jobs[j].owner.depth);
    }
    assert OwnerFrame(n, j) == OwnerFrame(s, j);
    HeldElsewhere(s.pool, e.pool, s.jobs[j].rt.pending, InSlot(j), true, t, m, k);
  }

  lemma HeldElsewhere(p: Pool, q: Pool, r: Option<Ptr>, h: Holder, queued: bool, t: Tid, m: nat, k: nat)
    requires LocalRecords(p, q, t, m, k) && Held(p, r, h, queued)
    requires h != InSlot(k) && h != InFrame(t, m)
    ensures Held(q, r, h, queued)
  {
    if r.Some? {
      assert Elsewhere(p, r.value.addr, t, m, k);
    }
  }

  lemma OtherFramesKept(ds: seq<JobDesc>, s: State, t: Tid, m: nat, k: nat, e: Effect, u: Tid, d: nat)
    requires Inv(ds, s) && AtTop(s, t, m, k) && StepOk(ds, s, t, m, k, e)
    requires u != t || d != m
    requires HasFrame(Put(s, t, m, k, e), u, d)
    ensures FrameOk(Put(s, t, m, k, e), u, d)
  {
    hide JobOk, PoolOk, RecordOk;
    PutFrames(s, t, m, k, e, u, d);
    var f := s.threads[u][d];
    assert FrameOk(s, u, d);
    HeldElsewhere(s.pool, e.pool, f.offered, InFrame(u, d), false, t, m, k);
    HeldElsewhere(s.pool, e.pool, f.taken, InFrame(u, d), true, t, m, k);
  }

  lemma OtherRecordsKept(ds: seq<JobDesc>, s: State, t: Tid, m: nat, k: nat, e: Effect, a: nat)
    requires Inv(ds, s) && AtTop(s, t, m, k) && StepOk(ds, s, t, m, k, e)
    requires Elsewhere(e.pool, a, t, m, k)
    ensures RecordOk(Put(s, t, m, k, e), a)
  {
    assert a in s.pool.live && RecordOk(s, a);
    match s.pool.live[a].holder
    case InSlot(_) =>
    case InFrame(u, d) => PutFrames(s, t, m, k, e, u, d);
  }

  /** A step that is right about what it touches keeps the whole invariant. */
  lemma StepRule(ds: seq<JobDesc>, s: State, t: Tid, m: nat, k: nat, e: Effect)
    requires Inv(ds, s) && AtTop(s, t, m, k) && StepOk(ds, s, t, m, k, e)
    ensures Inv(ds, Put(s, t, m, k, e))
  {
    var n := Put(s, t, m, k, e);
    forall j | 0 <= j < |n.jobs|
      ensures SlotOk(ds, n, j)
    {
      if j != k {
        OtherSlotsKept(ds, s, t, m, k, e, j);
      }
    }
    forall u, d | HasFrame(n, u, d)
      ensures FrameOk(n, u, d)
    {
      if u != t || d != m {
        OtherFramesKept(ds, s, t, m, k, e, u, d);
      } else {
        PutFrames(s, t, m, k, e, t, m);
      }
    }
    forall a | a in n.pool.live
      ensures RecordOk(n, a)
    {
      if Elsewhere(n.pool, a, t, m, k) {
        OtherRecordsKept(ds, s, t, m, k, e, a);
      }
    }
  }
}
