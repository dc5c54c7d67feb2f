/**
 The state block of an application: allocated when it starts, kept while a worker
 lives, released once. The foreground thread and the workers take turns in any order.
 */
module ColdState {
  import opened Wrappers

  type BlockId = nat

  /** What the release guard reads of a block: a worker was created, and it has announced its end. */
  datatype Block = Block(task: bool, done: bool)

  /** A worker and the block it was started with; it ends by setting the block's done flag. */
  datatype Worker = Worker(block: BlockId, running: bool)

  /** What happens after a release. */
  datatype Then = ThenAllocate | ThenRest

  /** Where the foreground thread is in solar_os_app_start or solar_os_app_stop. */
  datatype Pc =
    | Rest
    | Guarding(goal: Then)
    | Cleaning(goal: Then)
    | Freeing(goal: Then)
    | Clearing(goal: Then)
    | Allocating
    | InStart
    | InStop

  /** `fault`: a freed block was used, or freed again. */
  datatype State = State(pc: Pc, slot: Option<BlockId>, blocks: map<BlockId, Block>, next: BlockId,
                         workers: seq<Worker>, cleaned: set<BlockId>, freed: set<BlockId>, fault: bool)

  datatype Action =
    | Start                // solar_os_app_start is called
    | Stop                 // solar_os_app_stop is called
    | Continue             // the release goes on by one step
    | Allocate(ok: bool)
    | Spawn                // the application starts a worker on its block
    | Reap                 // the application forgets a worker that has ended
    | Return(ok: bool)     // the application's start or stop callback returns
    | Work(worker: nat)    // a worker uses the block
    | Finish(worker: nat)  // a worker's last access: it sets the done flag

  predicate Live(s: State, b: BlockId) {
    b in s.blocks
  }

  /** Whoever follows the slot uses the block it points to. */
  function Use(s: State): State {
    if s.slot.Some? && Live(s, s.slot.value) then s else s.(fault := true)
  }

  /** The guard of the application, if it has one: no worker, or one that is done. */
  function Ready(guarded: bool, s: State): bool {
    !guarded || s.slot.None? || !Live(s, s.slot.value)
    || !s.blocks[s.slot.value].task || s.blocks[s.slot.value].done
  }

  function SetBlock(s: State, block: Block): State {
    if s.slot.Some? && Live(s, s.slot.value) then s.(blocks := s.blocks[s.slot.value := block]) else s
  }

  /** One step of app_release_state. */
  function Release(guarded: bool, s: State): Option<State> {
    match s.pc
    case Guarding(goal) => Some(Use(s).(pc := if Ready(guarded, s) then Cleaning(goal) else Rest))
    case Cleaning(goal) =>
      Some(Use(s).(pc := Freeing(goal), cleaned := if s.slot.Some? then s.cleaned + {s.slot.value} else s.cleaned))
    case Freeing(goal) =>
      if s.slot.None? then None
      else Some(Use(s).(pc := Clearing(goal), blocks := s.blocks - {s.slot.value}, freed := s.freed + {s.slot.value}))
    case Clearing(goal) => Some(s.(slot := None, pc := if goal == ThenAllocate then Allocating else Rest))
    case _ => None
  }

  /** A block the application may start a worker on: none is there, or the last one has ended. */
  predicate MaySpawn(s: State) {
    s.pc in {Rest, InStart} && s.slot.Some? && Live(s, s.slot.value)
    && (!s.blocks[s.slot.value].task || s.blocks[s.slot.value].done)
  }

  function Step(guarded: bool, s: State, a: Action): Option<State> {
    match a
    case Start =>
      if s.pc != Rest then None
      else Some(s.(pc := if s.slot.Some? then Guarding(ThenAllocate) else Allocating))
    case Stop => if s.pc != Rest then None else Some(s.(pc := InStop))
    case Continue => Release(guarded, s)
    case Allocate(ok) =>
      if s.pc != Allocating then None
      else if !ok then Some(s.(pc := Rest))
      else Some(s.(pc := InStart, slot := Some(s.next), blocks := s.blocks[s.next := Block(false, false)],
                   next := s.next + 1))
    case Spawn =>
      if !MaySpawn(s) then None
      else Some(SetBlock(s, Block(true, false)).(workers := s.workers + [Worker(s.slot.value, true)]))
    case Reap =>
      if s.pc in {Rest, InStart, InStop} && s.slot.Some? && Live(s, s.slot.value) && s.blocks[s.slot.value].done
      then Some(SetBlock(s, Block(false, false))) else None
    case Return(ok) =>
      if s.pc == InStart then Some(s.(pc := if ok || s.slot.None? then Rest else Guarding(ThenRest)))
      else if s.pc == InStop then Some(s.(pc := if s.slot.None? then Rest else Guarding(ThenRest)))
      else None
    case Work(w) => if w < |s.workers| && s.workers[w].running then Some(UseOf(s, w)) else None
    case Finish(w) =>
      if w < |s.workers| && s.workers[w].running then
        Some(Finished(UseOf(s, w)).(workers := s.workers[w := s.workers[w].(running := false)]))
      else None
  }

  /** A worker follows the slot; it must find the block it was started with. */
  function UseOf(s: State, w: nat): State
    requires w < |s.workers|
  {
    if s.slot == Some(s.workers[w].block) then Use(s) else s.(fault := true)
  }

  function Finished(s: State): State {
    if s.slot.Some? && Live(s, s.slot.value) then SetBlock(s, s.blocks[s.slot.value].(done := true)) else s
  }

  // ----- the release in one go, in place -----

  /** Everything a release does to the state when its guard lets it. */
  function Released(s: State): State
    requires s.slot.Some?
  {
    s.(slot := None, blocks := s.blocks - {s.slot.value}, freed := s.freed + {s.slot.value},
       cleaned := s.cleaned + {s.slot.value})
  }

  /** Its steps, taken without interruption, amount to that, or to nothing if the guard refuses. */
  lemma ReleaseInSteps(guarded: bool, s: State, goal: Then)
    requires s.pc == Guarding(goal) && s.slot.Some? && Live(s, s.slot.value)
    ensures Release(guarded, s).Some?
    ensures !Ready(guarded, s) ==> Release(guarded, s) == Some(s.(pc := Rest))
    ensures Ready(guarded, s) ==>
      var s1 := Release(guarded, s).value;
      Release(guarded, s1).Some? && var s2 := Release(guarded, s1).value;
      Release(guarded, s2).Some? && var s3 := Release(guarded, s2).value;
      Release(guarded, s3) == Some(Released(s).(pc := if goal == ThenAllocate then Allocating else Rest))
  {
  }

  datatype StartResult = Started | InvalidState | NoMemory | StartFailed

  /** The slot and the blocks as solar_os_app_start and solar_os_app_stop change them. */
  class AppSlot {
    const guarded: bool
    var slot: Option<BlockId>
    var blocks: map<BlockId, Block>
    var next: BlockId
    var cleaned: set<BlockId>
    var freed: set<BlockId>

    /** The slot as a state of the machine, with given workers and program point. */
    ghost function View(pc: Pc, workers: seq<Worker>): State
      reads this
    {
      State(pc, slot, blocks, next, workers, cleaned, freed, false)
    }

    constructor (guarded: bool)
      ensures View(Rest, []) == INITIAL && this.guarded == guarded
    {
      this.guarded := guarded;
      slot, blocks, next, cleaned, freed := None, map[], 0, {}, {};
    }

    /** app_release_state */
    method ReleaseState() returns (released: bool)
      requires slot.Some? ==> slot.value in blocks
      modifies this
      ensures released == (old(slot).None? || Ready(guarded, old(View(Rest, []))))
      ensures View(Rest, [])
           == if released && old(slot).Some? then Released(old(View(Rest, []))) else old(View(Rest, []))
    {
      if slot.None? {
        return true;
      }
      var block := blocks[slot.value];
      if guarded && block.task && !block.done {
        return false;
      }
      cleaned := cleaned + {slot.value};
      blocks, freed := blocks - {slot.value}, freed + {slot.value};
      slot := None;
      return true;
    }

    /**
     solar_os_app_start with no worker in between; `allocates` is whether memory
     is found, `accepts` whether the application's own start succeeds.
     */
    method StartApp(allocates: bool, accepts: bool) returns (r: StartResult)
      requires slot.Some? ==> slot.value in blocks
      requires next !in blocks
      modifies this
      ensures r == if old(slot).Some? && !Ready(guarded, old(View(Rest, []))) then InvalidState
                   else if !allocates then NoMemory
                   else if accepts then Started else StartFailed
      ensures r == InvalidState ==> View(Rest, []) == old(View(Rest, []))
      ensures r == NoMemory ==> slot.None? && next == old(next)
      ensures r == Started ==> slot == Some(old(next)) && next == old(next) + 1
                               && slot.value in blocks && blocks[slot.value] == Block(false, false)
      ensures r == StartFailed ==> slot.None? && old(next) in freed && old(next) in cleaned && old(next) !in blocks
      ensures old(slot).Some? && r != InvalidState ==> old(slot).value in freed && old(slot).value in cleaned
    {
      if slot.Some? {
        var released := ReleaseState();
        if !released {
          return InvalidState;
        }
      }
      if !allocates {
        return NoMemory;
      }
      slot, blocks, next := Some(next), blocks[next := Block(false, false)], next + 1;
      if !accepts {
        var released := ReleaseState();
        return StartFailed;
      }
      return Started;
    }
  }

  // ----- the invariant -----

  /** A running worker has the slot's block, which says so. */
  ghost predicate WorkerOk(s: State, w: nat)
    requires w < |s.workers|
  {
    s.workers[w].running ==>
      && s.slot == Some(s.workers[w].block)
      && s.workers[w].block in s.blocks
      && s.blocks[s.workers[w].block] == Block(true, false)
  }

  ghost predicate Inv(s: State) {
    && !s.fault
    // the slot is set exactly while its block lives, but for the moment between free and clearing
    && s.blocks.Keys == (if s.slot.Some? && !s.pc.Clearing? then {s.slot.value} else {})
    && (s.slot.Some? ==> s.slot.value < s.next)
    && (s.pc.Guarding? || s.pc.Cleaning? || s.pc.Freeing? || s.pc.Clearing? || s.pc.InStart? ==> s.slot.Some?)
    && (s.pc.Allocating? ==> s.slot.None?)
    && (forall b: BlockId :: b in s.freed ==> b < s.next && b in s.cleaned && b !in s.blocks)
    && (s.pc.Freeing? || s.pc.Clearing? ==> s.slot.value in s.cleaned)
    && (s.pc.Clearing? ==> s.slot.value in s.freed)
    && (forall b: BlockId :: b < s.next ==> b in s.blocks || b in s.freed)
    // past the guard no worker runs, and none can be started
    && (s.pc.Cleaning? || s.pc.Freeing? || s.pc.Clearing? || s.pc.Allocating? ==>
          forall w :: 0 <= w < |s.workers| ==> !s.workers[w].running)
    && (forall w :: 0 <= w < |s.workers| ==> WorkerOk(s, w))
    // a block that waits for a worker has one
    && (s.slot.Some? && Live(s, s.slot.value) && s.blocks[s.slot.value] == Block(true, false) ==>
          exists w :: 0 <= w < |s.workers| && s.workers[w].running)
    // one worker at a time
    && (forall v, w :: 0 <= v < w < |s.workers| ==> !(s.workers[v].running && s.workers[w].running))
  }

  /** All that matters of the workers, in one place. */
  lemma WorkersKnown(s: State)
    requires Inv(s)
    ensures forall w :: 0 <= w < |s.workers| && s.workers[w].running ==>
      s.slot == Some(s.workers[w].block) && s.workers[w].block in s.blocks
      && s.blocks[s.workers[w].block] == Block(true, false)
  {
    forall w | 0 <= w < |s.workers| && s.workers[w].running
      ensures s.slot == Some(s.workers[w].block) && s.workers[w].block in s.blocks
      ensures s.blocks[s.workers[w].block] == Block(true, false)
    {
      assert WorkerOk(s, w);
    }
  }

  lemma ForegroundKeeps(s: State, a: Action)
    requires Inv(s) && !a.Work? && !a.Finish? && !a.Spawn? && !a.Reap? && Step(true, s, a).Some?
    ensures Inv(Step(true, s, a).value)
  {
    WorkersKnown(s);
  }

  lemma WorkersKeep(s: State, a: Action)
    requires Inv(s) && (a.Work? || a.Finish? || a.Spawn? || a.Reap?) && Step(true, s, a).Some?
    ensures Inv(Step(true, s, a).value)
  {
    WorkersKnown(s);
    if a.Spawn? {
      assert Step(true, s, a).value.workers[|s.workers|].running;
    }
  }

  lemma StepKeeps(s: State, a: Action)
    requires Inv(s) && Step(true, s, a).Some?
    ensures Inv(Step(true, s, a).value)
  {
    if a.Work? || a.Finish? || a.Spawn? || a.Reap? {
      WorkersKeep(s, a);
    } else {
      ForegroundKeeps(s, a);
    }
  }

  // ----- runs -----

  const INITIAL := State(Rest, None, map[], 0, [], {}, {}, false)

  /** The state after a sequence of steps, if all of them were possible. */
  function After(guarded: bool, actions: seq<Action>): Option<State> {
    if actions == [] then Some(INITIAL)
    else
      match After(guarded, actions[..|actions| - 1])
      case None => None
      case Some(s) => Step(guarded, s, actions[|actions| - 1])
  }

  lemma {:induction false} RunKeeps(actions: seq<Action>)
    requires After(true, actions).Some?
    ensures Inv(After(true, actions).value)
  {
    if actions != [] {
      RunKeeps(actions[..|actions| - 1]);
      StepKeeps(After(true, actions[..|actions| - 1]).value, actions[|actions| - 1]);
    }
  }

  /** Whenever the foreground thread is elsewhere, the slot is set exactly while its block lives. */
  lemma SlotIsSetWhileTheBlockLives(actions: seq<Action>)
    requires After(true, actions).Some? && !After(true, actions).value.pc.Clearing?
    ensures var s := After(true, actions).value;
      (forall b: BlockId :: Live(s, b) <==> s.slot == Some(b))
  {
    RunKeeps(actions);
  }

  /** Every block ever allocated is live or was freed, never both, and freed only after its cleanup. */
  lemma BlocksAreFreedOnceAfterCleanup(actions: seq<Action>, b: BlockId)
    requires After(true, actions).Some?
    ensures var s := After(true, actions).value;
      && !s.fault
      && (b < s.next ==> (b in s.freed <==> !Live(s, b)))
      && (b in s.freed ==> b in s.cleaned)
  {
    RunKeeps(actions);
  }

  lemma AfterSnoc(guarded: bool, actions: seq<Action>, a: Action)
    ensures After(guarded, actions + [a])
         == match After(guarded, actions) case None => None case Some(s) => Step(guarded, s, a)
  {
    assert (actions + [a])[..|actions|] == actions;
  }

  /**
   Whatever came before, a release that has reached its guard, in a stop or in the
   start of the next application, gives up exactly if a worker is running; it is
   then back at rest and has left everything as it was.
   */
  lemma ReleaseStopsAtARunningWorker(actions: seq<Action>)
    requires After(true, actions).Some? && After(true, actions).value.pc.Guarding?
    ensures var s := After(true, actions).value;
      && After(true, actions + [Continue]).Some?
      && (if exists w :: 0 <= w < |s.workers| && s.workers[w].running
          then After(true, actions + [Continue]).value == s.(pc := Rest)
          else After(true, actions + [Continue]).value.pc == Cleaning(s.pc.goal))
  {
    RunKeeps(actions);
    WorkersKnown(After(true, actions).value);
    AfterSnoc(true, actions, Continue);
  }

  lemma OneMore(guarded: bool, actions: seq<Action>, s: State, a: Action, n: State)
    requires After(guarded, actions) == Some(s) && Step(guarded, s, a) == Some(n)
    ensures After(guarded, actions + [a]) == Some(n)
  {
    AfterSnoc(guarded, actions, a);
  }

  predicate Idle(s: State) {
    forall w :: 0 <= w < |s.workers| ==> !s.workers[w].running
  }

  /** The actions of a release that is not interrupted. */
  function Releasing(actions: seq<Action>): seq<Action> {
    actions + [Continue] + [Continue] + [Continue] + [Continue]
  }

  /** Once it has reached its guard and no worker runs, a release cleans up and frees the block. */
  lemma ReleasesAreCompleted(actions: seq<Action>)
    requires After(true, actions).Some? && After(true, actions).value.pc.Guarding? && Idle(After(true, actions).value)
    ensures var s := After(true, actions).value;
      && s.slot.Some? && s.blocks.Keys == {s.slot.value}
      && After(true, Releasing(actions))
         == Some(State(if s.pc.goal == ThenAllocate then Allocating else Rest, None, map[], s.next, s.workers,
                       s.cleaned + {s.slot.value}, s.freed + {s.slot.value}, false))
  {
    RunKeeps(actions);
    var s := After(true, actions).value;
    assert Ready(true, s);
    hide After;
    ReleaseInSteps(true, s, s.pc.goal);
    var s1 := Release(true, s).value;
    var s2 := Release(true, s1).value;
    var s3 := Release(true, s2).value;
    OneMore(true, actions, s, Continue, s1);
    OneMore(true, actions + [Continue], s1, Continue, s2);
    OneMore(true, actions + [Continue] + [Continue], s2, Continue, s3);
    OneMore(true, actions + [Continue] + [Continue] + [Continue], s3, Continue, Release(true, s3).value);
    assert s.blocks - {s.slot.value} == map[];
  }

  /**
   Stopping an application: its stop callback is called and its block, if it has one, freed, unless a worker
   still runs; then the block stays and nothing has changed.
   */
  lemma StopsFreeTheBlock(actions: seq<Action>, ok: bool)
    requires After(true, actions).Some? && After(true, actions).value.pc == Rest
    ensures var s, stopped := After(true, actions).value, actions + [Stop] + [Return(ok)];
      if s.slot.None? then After(true, stopped) == Some(s)
      else if Idle(s) then
        After(true, Releasing(stopped))
        == Some(s.(slot := None, blocks := map[], cleaned := s.cleaned + {s.slot.value},
                   freed := s.freed + {s.slot.value}))
      else After(true, stopped + [Continue]) == Some(s)
  {
    RunKeeps(actions);
    var s, stopped := After(true, actions).value, actions + [Stop] + [Return(ok)];
    OneMore(true, actions, s, Stop, s.(pc := InStop));
    var n := s.(pc := if s.slot.None? then Rest else Guarding(ThenRest));
    OneMore(true, actions + [Stop], s.(pc := InStop), Return(ok), n);
    if s.slot.Some? {
      if Idle(s) {
        ReleasesAreCompleted(stopped);
      } else {
        ReleaseStopsAtARunningWorker(stopped);
      }
    }
  }

  /** The actions of a start that finds memory and whose start callback returns. */
  function Starting(actions: seq<Action>, ok: bool): seq<Action> {
    actions + [Start] + [Allocate(true)] + [Return(ok)]
  }

  /** A start without a block to free, up to the return of the start callback. */
  lemma StartsAllocate(actions: seq<Action>, s: State, ok: bool)
    requires After(true, actions) == Some(s) && s.pc == Rest && s.slot.None? && s.blocks == map[]
    ensures After(true, actions + [Start] + [Allocate(false)]) == Some(s)
    ensures After(true, Starting(actions, ok))
         == Some(s.(pc := if ok then Rest else Guarding(ThenRest), slot := Some(s.next),
                    blocks := map[s.next := Block(false, false)], next := s.next + 1))
  {
    hide After;
    OneMore(true, actions, s, Start, s.(pc := Allocating));
    OneMore(true, actions + [Start], s.(pc := Allocating), Allocate(false), s);
    var n := s.(slot := Some(s.next), blocks := map[s.next := Block(false, false)], next := s.next + 1);
    OneMore(true, actions + [Start], s.(pc := Allocating), Allocate(true), n.(pc := InStart));
    OneMore(true, actions + [Start] + [Allocate(true)], n.(pc := InStart), Return(ok),
            n.(pc := if ok then Rest else Guarding(ThenRest)));
  }

  /**
   Starting an application while none has a block: its block is new, and is kept if the start callback accepts
   it. Without memory nothing changes.
   */
  lemma StartsBringANewBlock(actions: seq<Action>)
    requires After(true, actions).Some? && After(true, actions).value.pc == Rest
    requires After(true, actions).value.slot.None?
    ensures var s := After(true, actions).value;
      && After(true, actions + [Start] + [Allocate(false)]) == Some(s)
      && After(true, Starting(actions, true))
         == Some(s.(slot := Some(s.next), blocks := map[s.next := Block(false, false)], next := s.next + 1))
  {
    hide After, Starting, Idle;
    NobodyHasABlock(actions);
    StartsAllocate(actions, After(true, actions).value, true);
  }

  /** If the start callback does not accept the start, its block is freed again. */
  lemma RefusedStartsFreeTheBlock(actions: seq<Action>)
    requires After(true, actions).Some? && After(true, actions).value.pc == Rest
    requires After(true, actions).value.slot.None?
    ensures var s := After(true, actions).value;
      After(true, Releasing(Starting(actions, false)))
      == Some(s.(next := s.next + 1, cleaned := s.cleaned + {s.next}, freed := s.freed + {s.next}))
  {
    hide After, Inv, Step, Releasing, Starting, Idle;
    NobodyHasABlock(actions);
    var s := After(true, actions).value;
    StartsAllocate(actions, s, false);
    SameWorkers(s, After(true, Starting(actions, false)).value);
    ReleasesAreCompleted(Starting(actions, false));
  }

  lemma SameWorkers(s: State, n: State)
    requires Idle(s) && n.workers == s.workers
    ensures Idle(n)
  {
  }

  lemma NobodyHasABlock(actions: seq<Action>)
    requires After(true, actions).Some? && After(true, actions).value.pc == Rest
    requires After(true, actions).value.slot.None?
    ensures var s := After(true, actions).value;
      s.blocks == map[] && !s.fault && Idle(s)
  {
    RunKeeps(actions);
    WorkersKnown(After(true, actions).value);
  }

  /** Starting an application while another has a block frees that first; while its worker runs, it cannot. */
  lemma StartsFreeTheOldBlock(actions: seq<Action>)
    requires After(true, actions).Some? && After(true, actions).value.pc == Rest
    requires After(true, actions).value.slot.Some?
    ensures var s, started := After(true, actions).value, actions + [Start];
      if Idle(s) then
        After(true, Releasing(started))
        == Some(s.(pc := Allocating, slot := None, blocks := map[], cleaned := s.cleaned + {s.slot.value},
                   freed := s.freed + {s.slot.value}))
      else After(true, started + [Continue]) == Some(s)
  {
    RunKeeps(actions);
    var s, started := After(true, actions).value, actions + [Start];
    OneMore(true, actions, s, Start, s.(pc := Guarding(ThenAllocate)));
    if Idle(s) {
      ReleasesAreCompleted(started);
    } else {
      ReleaseStopsAtARunningWorker(started);
    }
  }

  /** The state in which an application with a worker, that has no guard, begins to be released. */
  const ABANDONED := State(Guarding(ThenRest), Some(0), map[0 := Block(true, false)], 1, [Worker(0, true)], {}, {},
                           false)

  lemma WorkersAreAbandoned() returns (actions: seq<Action>)
    ensures After(false, actions) == Some(ABANDONED)
  {
    assert After(false, []) == Some(INITIAL);
    hide After;
    var s1 := INITIAL.(pc := Allocating);
    OneMore(false, [], INITIAL, Start, s1);
    var s2 := s1.(pc := InStart, slot := Some(0), blocks := map[0 := Block(false, false)], next := 1);
    OneMore(false, [] + [Start], s1, Allocate(true), s2);
    actions := [] + [Start] + [Allocate(true)];
    var s3 := s2.(blocks := map[0 := Block(true, false)], workers := [Worker(0, true)]);
    assert s2.workers + [Worker(0, true)] == [Worker(0, true)] && s2.blocks[0 := Block(true, false)] == s3.blocks;
    OneMore(false, actions, s2, Spawn, s3);
    actions := actions + [Spawn];
    OneMore(false, actions, s3, Return(false), ABANDONED);
    actions := actions + [Return(false)];
  }

  /** Without a guard a stopped application's worker can find its block freed. */
  lemma UnguardedWorkersFault() returns (actions: seq<Action>)
    ensures After(false, actions).Some? && After(false, actions).value.fault
  {
    actions := WorkersAreAbandoned();
    hide After;
    var s := ABANDONED;
    ReleaseInSteps(false, s, ThenRest);
    var s1 := Release(false, s).value;
    OneMore(false, actions, s, Continue, s1);
    actions := actions + [Continue];
    var s2 := Release(false, s1).value;
    OneMore(false, actions, s1, Continue, s2);
    actions := actions + [Continue];
    var s3 := Release(false, s2).value;
    OneMore(false, actions, s2, Continue, s3);
    actions := actions + [Continue];
    OneMore(false, actions, s3, Work(0), s3.(fault := true));
    actions := actions + [Work(0)];
  }

  /** The guard is what keeps workers off freed blocks, over every run. */
  lemma GuardIsNeededAndEnough(guarded: bool)
    ensures (forall actions :: After(guarded, actions).Some? ==> !After(guarded, actions).value.fault) <==> guarded
  {
    if guarded {
      forall actions | After(guarded, actions).Some?
        ensures !After(guarded, actions).value.fault
      {
        RunKeeps(actions);
      }
    } else {
      var actions := UnguardedWorkersFault();
      assert After(guarded, actions).value.fault;
    }
  }
}
