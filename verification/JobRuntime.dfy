/**
 One slot of the job table and its critical sections. Every section the job
 manager runs under its lock appears twice: as a function on the slot's value,
 which the interleaving model uses, and as a method of the class that updates
 the slot in place.
 */
module JobRuntimes {
  import opened Wrappers

  type Tid = nat

  /** The main loop's thread, the only one that dispatches ticks. */
  const TICKER: Tid := 0

  /** Number of usable values of the 32-bit generation counter, which skips zero. */
  const GENERATIONS: nat := 0xFFFF_FFFF

  datatype JobState = Stopped | Waiting | Running | Failed

  datatype Status = Ok | NoMemory | OtherError

  /**
   A pointer to a queued start record. Only `addr` exists at run time; `serial`
   numbers the allocations and tells a record from a later one at its address.
   */
  datatype Ptr = Ptr(addr: nat, serial: nat)

  /** The parts of a registry entry the manager looks at. */
  datatype JobDesc = JobDesc(present: bool, start: bool, stop: bool, event: bool, needsStack: bool) {
    predicate HasStart() { present && start }
    predicate HasStop() { present && stop }
    predicate HasEvent() { present && event }
  }

  datatype Runtime = Runtime(
    state: JobState,
    lastError: Status,
    generation: nat,
    tickCount: nat,
    callbackRefs: nat,
    callbackTask: Option<Tid>,
    stopAfterCallback: bool,
    busy: bool,
    pending: Option<Ptr>)

  // ----- generations -----

  function NextGeneration(g: nat): nat {
    var n := (g + 1) % 0x1_0000_0000;
    if n == 0 then (n + 1) % 0x1_0000_0000 else n
  }

  /** The generation a slot shows after `epoch` starts and stops were claimed on it. */
  function GenerationOf(epoch: nat): (g: nat)
    ensures g <= GENERATIONS && (g == 0 <==> epoch == 0)
  {
    if epoch == 0 then 0 else (epoch - 1) % GENERATIONS + 1
  }

  lemma NextGenerationCounts(epoch: nat)
    ensures NextGeneration(GenerationOf(epoch)) == GenerationOf(epoch + 1)
  {
    if epoch > 0 {
      var q, r := (epoch - 1) / GENERATIONS, (epoch - 1) % GENERATIONS;
      assert epoch == q * GENERATIONS + (r + 1);
      if r + 1 == GENERATIONS {
        assert epoch == (q + 1) * GENERATIONS;
      }
    }
  }

  /** A generation identifies its epoch until the counter has gone all the way round. */
  lemma GenerationsRepeatOnlyAfterAFullTurn(a: nat, b: nat)
    requires 0 < a <= b
    ensures GenerationOf(a) == GenerationOf(b) <==> (b - a) % GENERATIONS == 0
  {
    var qa, ra := (a - 1) / GENERATIONS, (a - 1) % GENERATIONS;
    var qb, rb := (b - 1) / GENERATIONS, (b - 1) % GENERATIONS;
    assert b - a == (qb - qa) * GENERATIONS + (rb - ra);
    if ra <= rb {
      assert (b - a) % GENERATIONS == rb - ra;
    } else {
      assert b - a == (qb - qa - 1) * GENERATIONS + (rb - ra + GENERATIONS);
      assert (b - a) % GENERATIONS == rb - ra + GENERATIONS;
    }
  }

  // ----- critical sections as functions on the slot -----

  predicate OwnCallback(rt: Runtime, self: Tid) {
    rt.callbackRefs != 0 && rt.callbackTask == Some(self)
  }

  predicate StartRefused(rt: Runtime, d: JobDesc, self: Tid) {
    rt.busy || !d.present || OwnCallback(rt, self)
  }

  function ClaimStart(rt: Runtime): Runtime {
    rt.(busy := true, pending := None, generation := NextGeneration(rt.generation), state := Stopped)
  }

  predicate StillMine(rt: Runtime, generation: nat) {
    rt.generation == generation && rt.busy
  }

  function QueueStart(rt: Runtime, record: Ptr): Runtime {
    rt.(pending := Some(record), lastError := Ok, tickCount := 0, state := Waiting, busy := false)
  }

  function CommitStart(rt: Runtime, ret: Status, record: Option<Ptr>): Runtime {
    if record.Some? then QueueStart(rt, record.value)
    else rt.(tickCount := 0, lastError := ret, busy := false,
             state := if ret == Ok then Running else Failed)
  }

  function CancelStart(rt: Runtime): Runtime {
    rt.(pending := None, state := Stopped)
  }

  function ClaimStop(rt: Runtime, self: Tid): Runtime {
    rt.(busy := true, stopAfterCallback := OwnCallback(rt, self),
        generation := NextGeneration(rt.generation), state := Stopped)
  }

  function FinishStop(rt: Runtime): Runtime {
    rt.(lastError := Ok, busy := false)
  }

  predicate MarkAccepted(rt: Runtime, generation: nat) {
    generation != 0 && rt.generation == generation && !rt.busy
  }

  function MarkStopped(rt: Runtime, err: Status): Runtime {
    rt.(state := Stopped, lastError := err)
  }

  predicate RetryReady(rt: Runtime, d: JobDesc) {
    rt.state == Waiting && !rt.busy && rt.pending.Some? && d.present
  }

  /** Pointers are compared by address alone. */
  predicate PointsTo(p: Option<Ptr>, record: Ptr) {
    p.Some? && p.value.addr == record.addr
  }

  predicate RetryUnchanged(rt: Runtime, generation: nat, record: Ptr, busy: bool) {
    rt.generation == generation && rt.state == Waiting && rt.busy == busy
    && PointsTo(rt.pending, record)
  }

  function ClaimRetry(rt: Runtime): Runtime {
    rt.(busy := true)
  }

  function CommitRetry(rt: Runtime, ret: Status): Runtime {
    if ret == NoMemory then rt.(lastError := ret, busy := false)
    else rt.(lastError := ret, busy := false, pending := None,
             state := if ret == Ok then Running else Failed)
  }

  predicate Dispatchable(rt: Runtime, d: JobDesc) {
    rt.state == Running && !rt.busy && d.HasEvent()
  }

  function EnterCallback(rt: Runtime, self: Tid): Runtime {
    rt.(callbackRefs := rt.callbackRefs + 1, callbackTask := Some(self))
  }

  /** The reference is dropped; a stop requested by the callback itself falls due. */
  function DropCallback(rt: Runtime): Runtime {
    var refs := if rt.callbackRefs > 0 then rt.callbackRefs - 1 else 0;
    if refs == 0 then rt.(callbackRefs := 0, callbackTask := None) else rt.(callbackRefs := refs)
  }

  predicate StopDue(rt: Runtime) {
    rt.callbackRefs == 0 && rt.stopAfterCallback && rt.busy && rt.state == Stopped
  }

  function TakeDeferredStop(rt: Runtime): Runtime {
    if StopDue(rt) then rt.(stopAfterCallback := false) else rt
  }

  predicate TickCredited(rt: Runtime, generation: nat) {
    rt.generation == generation && rt.state == Running
  }

  function CreditTick(rt: Runtime, generation: nat): Runtime {
    if TickCredited(rt, generation) then rt.(tickCount := rt.tickCount + 1) else rt
  }

  // ----- the slot updated in place -----

  class JobSlot {
    const desc: JobDesc
    var state: JobState
    var lastError: Status
    var generation: nat
    var tickCount: nat
    var callbackRefs: nat
    var callbackTask: Option<Tid>
    var stopAfterCallback: bool
    var busy: bool
    var pending: Option<Ptr>

    ghost function View(): Runtime
      reads this
    {
      Runtime(state, lastError, generation, tickCount, callbackRefs, callbackTask,
              stopAfterCallback, busy, pending)
    }

    constructor (d: JobDesc)
      ensures desc == d
      ensures View() == Runtime(Stopped, Ok, 0, 0, 0, None, false, false, None)
    {
      desc := d;
      state, lastError, generation, tickCount := Stopped, Ok, 0, 0;
      callbackRefs, callbackTask := 0, None;
      stopAfterCallback, busy, pending := false, false, None;
    }

    method BumpGeneration() returns (g: nat)
      modifies this`generation
      ensures View() == old(View()).(generation := g) && g == NextGeneration(old(generation))
    {
      generation := (generation + 1) % 0x1_0000_0000;
      if generation == 0 {
        generation := (generation + 1) % 0x1_0000_0000;
      }
      g := generation;
    }

    method EnterStart(self: Tid) returns (claimed: bool, callStop: bool, previous: Option<Ptr>, g: nat)
      modifies this
      ensures claimed == !StartRefused(old(View()), desc, self)
      ensures View() == if claimed then ClaimStart(old(View())) else old(View())
      ensures claimed ==> callStop == (old(state) == Running && desc.HasStop())
      ensures claimed ==> previous == old(pending) && g == generation
    {
      claimed, callStop, previous, g := false, false, None, 0;
      if busy || !desc.present {
        return;
      }
      if callbackRefs != 0 && callbackTask == Some(self) {
        return;
      }
      busy := true;
      callStop := state == Running && desc.stop;
      previous := pending;
      pending := None;
      g := BumpGeneration();
      state := Stopped;
      claimed := true;
    }

    method EnterQueue(g: nat, record: Ptr) returns (queued: bool)
      modifies this
      ensures queued == StillMine(old(View()), g)
      ensures View() == if queued then QueueStart(old(View()), record) else old(View())
    {
      queued := false;
      if generation == g && busy {
        pending := Some(record);
        lastError := Ok;
        tickCount := 0;
        state := Waiting;
        busy := false;
        queued := true;
      }
    }

    method EnterCommit(g: nat, ret: Status, record: Option<Ptr>) returns (queued: bool)
      modifies this
      ensures queued == (StillMine(old(View()), g) && record.Some?)
      ensures View() == if StillMine(old(View()), g) then CommitStart(old(View()), ret, record)
                        else old(View())
      ensures old(generation) == g && old(busy) ==>
        && !busy && tickCount == 0
        && (if record.Some? then state == Waiting && lastError == Ok && pending == record
            else state == (if ret == Ok then Running else Failed) && lastError == ret)
    {
      queued := false;
      if generation == g && busy {
        tickCount := 0;
        if record.Some? {
          pending := record;
          lastError := Ok;
          state := Waiting;
          queued := true;
        } else {
          lastError := ret;
          state := if ret == Ok then Running else Failed;
        }
        busy := false;
      }
    }

    method EnterStop(self: Tid)
      returns (refused: bool, stopping: bool, deferred: bool, previous: Option<Ptr>, g: nat)
      modifies this
      ensures refused == old(busy)
      ensures stopping == (!refused && old(state) == Running)
      ensures deferred == (stopping && OwnCallback(old(View()), self))
      ensures View() == if refused then old(View())
                        else if stopping then ClaimStop(old(View()), self)
                        else CancelStart(old(View()))
      ensures !refused && !stopping ==> previous == old(pending)
      ensures stopping ==> g == generation
    {
      refused, stopping, deferred, previous, g := false, false, false, None, 0;
      if busy {
        refused := true;
        return;
      }
      if state != Running {
        previous := pending;
        pending := None;
        state := Stopped;
        return;
      }
      stopping := true;
      busy := true;
      deferred := callbackRefs != 0 && callbackTask == Some(self);
      stopAfterCallback := deferred;
      g := BumpGeneration();
      state := Stopped;
    }

    method EnterFinishStop(g: nat)
      modifies this
      ensures View() == if StillMine(old(View()), g) then FinishStop(old(View())) else old(View())
    {
      if generation == g && busy {
        lastError := Ok;
        busy := false;
      }
    }

    method EnterMarkStopped(g: nat, err: Status) returns (ok: bool)
      modifies this
      ensures ok == MarkAccepted(old(View()), g)
      ensures View() == if ok then MarkStopped(old(View()), err) else old(View())
    {
      if g == 0 || generation != g || busy {
        ok := false;
        return;
      }
      state := Stopped;
      lastError := err;
      ok := true;
    }

    method EnterClaimRetry(g: nat, record: Ptr) returns (claimed: bool)
      modifies this
      ensures claimed == RetryUnchanged(old(View()), g, record, false)
      ensures View() == if claimed then ClaimRetry(old(View())) else old(View())
    {
      claimed := false;
      if generation == g && state == Waiting && !busy
         && pending.Some? && pending.value.addr == record.addr {
        busy := true;
        claimed := true;
      }
    }

    method EnterCommitRetry(g: nat, record: Ptr, ret: Status) returns (finished: bool)
      modifies this
      ensures finished == (RetryUnchanged(old(View()), g, record, true) && ret != NoMemory)
      ensures View() == if RetryUnchanged(old(View()), g, record, true)
                        then CommitRetry(old(View()), ret) else old(View())
      ensures RetryUnchanged(old(View()), g, record, true) ==>
        && !busy && lastError == ret && pending == (if ret == NoMemory then old(pending) else None)
        && state == (match ret case Ok => Running case NoMemory => Waiting case OtherError => Failed)
    {
      finished := false;
      if generation == g && state == Waiting && busy
         && pending.Some? && pending.value.addr == record.addr {
        lastError := ret;
        busy := false;
        if ret != NoMemory {
          pending := None;
          state := if ret == Ok then Running else Failed;
          finished := true;
        }
      }
    }

    method EnterDispatch(self: Tid, due: bool) returns (dispatched: bool, g: nat)
      modifies this
      ensures dispatched == (Dispatchable(old(View()), desc) && due)
      ensures View() == if dispatched then EnterCallback(old(View()), self) else old(View())
      ensures dispatched ==> g == generation
    {
      dispatched, g := false, 0;
      if state == Running && !busy && desc.present && desc.event && due {
        g := generation;
        callbackRefs := callbackRefs + 1;
        callbackTask := Some(self);
        dispatched := true;
      }
    }

    method EnterReturn(g: nat) returns (deferred: bool, deferredGeneration: nat)
      modifies this
      ensures deferred == StopDue(DropCallback(old(View())))
      ensures deferred ==> deferredGeneration == old(generation)
      ensures View() == CreditTick(TakeDeferredStop(DropCallback(old(View()))), g)
    {
      deferred, deferredGeneration := false, 0;
      if callbackRefs > 0 {
        callbackRefs := callbackRefs - 1;
      }
      if callbackRefs == 0 {
        callbackTask := None;
        if stopAfterCallback && busy && state == Stopped {
          stopAfterCallback := false;
          deferredGeneration := generation;
          deferred := true;
        }
      }
      if generation == g && state == Running {
        tickCount := tickCount + 1;
      }
    }
  }
}
