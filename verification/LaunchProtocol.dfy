/** Threads launching tasks under the launch mutex, with the counters kept beside. */
module LaunchProtocol {
  import opened Wrappers
  import opened TaskAdmission

  datatype Kind =
    | Create   // the create functions
    | Managed  // admit_managed: the caller creates and reports back while the mutex is held
    | Admit    // the test alone

  datatype Request = Request(kind: Kind, role: Role, stack: Size, external: bool)

  /** Where a thread is inside a launch; each step between two of these is atomic. */
  datatype Pc =
    | Outside
    | WaitLock(req: Request)
    | Locked(req: Request)
    | Recorded(req: Request)        // the request is counted
    | Passed(req: Request)          // the memory test succeeded
    | Turned(req: Request)          // a test alone failed; its request is counted next
    | Refused(req: Request)         // the memory test failed, and the request is counted
    | Made(req: Request, ok: bool)  // creation has succeeded or failed
    | Reporting(req: Request, ok: bool)
    | Unlocking(req: Request)

  datatype Stats = Stats(requests: nat, successes: nat, denied: nat, failures: nat)

  /** `others` is what others allocated since the mutex holder's memory test. */
  datatype State = State(threads: seq<Pc>, mutex: Option<nat>, heap: Heap, others: nat, stats: seq<Stats>)

  datatype Action =
    | Call(req: Request)
    | Take
    | Record
    | Test
    | Build(ok: bool, used: nat, heap: Heap)
    | Deny
    | Unlock
    | Report
    | Elsewhere(heap: Heap)  // memory taken or given back by the rest of the system

  function RoleIndex(r: Role): nat {
    match r
    case SystemRole => 0
    case ForegroundRole => 1
    case BackgroundRole => 2
  }

  predicate HoldsLock(pc: Pc) {
    pc.Locked? || pc.Recorded? || pc.Passed? || pc.Turned? || pc.Refused? || pc.Made? || pc.Unlocking?
  }

  /** The request is counted and its outcome is not. */
  predicate Open(pc: Pc) {
    pc.Recorded? || pc.Passed? || pc.Refused? || pc.Made? || pc.Reporting?
  }

  function Counted(s: State, role: Role, f: Stats -> Stats): seq<Stats>
    requires |s.stats| == 3
  {
    s.stats[RoleIndex(role) := f(s.stats[RoleIndex(role)])]
  }

  function At(s: State, t: nat, pc: Pc): State
    requires t < |s.threads|
  {
    s.(threads := s.threads[t := pc])
  }

  /** One atomic step of thread t; None when the step is not possible there. */
  function Step(s: State, t: nat, a: Action): Option<State>
    requires t < |s.threads| && |s.stats| == 3
  {
    var pc := s.threads[t];
    match a
    case Call(req) => if pc.Outside? && req.stack != 0 then Some(At(s, t, WaitLock(req))) else None
    case Take =>
      if pc.WaitLock? && s.mutex.None? then Some(At(s, t, Locked(pc.req)).(mutex := Some(t))) else None
    case Record =>
      if (pc.Locked? && pc.req.kind != Admit) || pc.Turned? then
        Some(At(s, t, if pc.Turned? then Refused(pc.req) else Recorded(pc.req))
             .(stats := Counted(s, pc.req.role, (st: Stats) => st.(requests := st.requests + 1))))
      else None
    case Test =>
      if pc.Recorded? then
        if Admitted(pc.req.stack, pc.req.role, pc.req.external, s.heap)
        then Some(At(s, t, Passed(pc.req)).(others := 0))
        else Some(At(s, t, Refused(pc.req)))
      else if pc.Locked? && pc.req.kind == Admit then
        if Admitted(pc.req.stack, pc.req.role, pc.req.external, s.heap)
        then Some(At(s, t, Unlocking(pc.req)))
        else Some(At(s, t, Turned(pc.req)))
      else None
    case Build(ok, used, heap) =>
      if pc.Passed? && used <= InternalNeed(pc.req.stack, pc.req.external) && heap.free == s.heap.free - used
      then Some(At(s, t, Made(pc.req, ok)).(heap := heap)) else None
    case Deny =>
      if pc.Refused? then
        Some(At(s, t, Unlocking(pc.req)).(
             stats := Counted(s, pc.req.role, (st: Stats) => st.(denied := st.denied + 1))))
      else None
    case Unlock =>
      if pc.Made? then Some(At(s, t, Reporting(pc.req, pc.ok)).(mutex := None))
      else if pc.Unlocking? then Some(At(s, t, Outside).(mutex := None))
      else None
    case Report =>
      if pc.Reporting? then
        Some(At(s, t, Outside).(stats := Counted(s, pc.req.role,
          (st: Stats) => if pc.ok then st.(successes := st.successes + 1) else st.(failures := st.failures + 1))))
      else None
    case Elsewhere(heap) =>
      Some(s.(heap := heap, others := s.others + if heap.free < s.heap.free then s.heap.free - heap.free else 0))
  }

  // ----- the invariant -----

  /** Threads whose request of that role is counted without an outcome. */
  function InFlight(threads: seq<Pc>, role: Role): nat {
    if threads == [] then 0
    else InFlight(threads[1..], role) + if Open(threads[0]) && threads[0].req.role == role then 1 else 0
  }

  lemma {:induction false} InFlightUpdate(threads: seq<Pc>, t: nat, pc: Pc, role: Role)
    requires t < |threads|
    ensures InFlight(threads[t := pc], role)
         == InFlight(threads, role)
            - (if Open(threads[t]) && threads[t].req.role == role then 1 else 0)
            + (if Open(pc) && pc.req.role == role then 1 else 0)
  {
    if t == 0 {
      assert threads[t := pc][1..] == threads[1..];
    } else {
      assert threads[t := pc][1..] == threads[1..][t - 1 := pc];
      InFlightUpdate(threads[1..], t - 1, pc, role);
    }
  }

  ghost predicate Balanced(st: Stats, open: nat) {
    st.requests == st.successes + st.denied + st.failures + open
  }

  /** Memory that a passed background launch may still count on. */
  ghost predicate WindowOk(s: State, pc: Pc) {
    pc.Passed? && pc.req.role == BackgroundRole ==>
      s.heap.free + s.others >= InternalNeed(pc.req.stack, pc.req.external) + RESERVE
  }

  ghost predicate Inv(s: State) {
    && |s.stats| == 3
    && (forall t :: 0 <= t < |s.threads| ==> (HoldsLock(s.threads[t]) <==> s.mutex == Some(t)))
    && (forall t :: 0 <= t < |s.threads| ==> WindowOk(s, s.threads[t]))
    && (forall role: Role :: Balanced(s.stats[RoleIndex(role)], InFlight(s.threads, role)))
  }

  // ----- every step keeps it -----

  lemma MutexKept(s: State, t: nat, a: Action)
    requires Inv(s) && t < |s.threads| && Step(s, t, a).Some?
    ensures var n := Step(s, t, a).value;
      |n.stats| == 3 && |n.threads| == |s.threads|
      && forall u :: 0 <= u < |n.threads| ==> (HoldsLock(n.threads[u]) <==> n.mutex == Some(u))
  {
  }

  lemma WindowKept(s: State, t: nat, a: Action)
    requires Inv(s) && t < |s.threads| && Step(s, t, a).Some?
    ensures var n := Step(s, t, a).value; forall u :: 0 <= u < |n.threads| ==> WindowOk(n, n.threads[u])
  {
    var n := Step(s, t, a).value;
    forall u | 0 <= u < |n.threads|
      ensures WindowOk(n, n.threads[u])
    {
      if u != t && n.threads[u].Passed? {
        assert s.mutex == Some(u);
        assert !HoldsLock(s.threads[t]);
      }
      assert WindowOk(s, s.threads[u]);
    }
  }

  function Outcomes(st: Stats): nat {
    st.successes + st.denied + st.failures
  }

  /** What a step does to the counters: it opens a request, closes one, or neither. */
  ghost predicate Booked(before: seq<Stats>, after: seq<Stats>, pc: Pc, next: Pc) {
    && |before| == |after| == 3
    && if Open(pc) == Open(next) then after == before && (Open(pc) ==> next.req == pc.req)
       else
         var role := if Open(pc) then pc.req.role else next.req.role;
         var was, now := before[RoleIndex(role)], after[RoleIndex(role)];
         && after == before[RoleIndex(role) := now]
         && now.requests == was.requests + (if Open(next) then 1 else 0)
         && Outcomes(now) == Outcomes(was) + (if Open(pc) then 1 else 0)
  }

  lemma StepBooks(s: State, t: nat, a: Action)
    requires Inv(s) && t < |s.threads| && Step(s, t, a).Some?
    ensures var n := Step(s, t, a).value;
      n.threads == s.threads[t := n.threads[t]] && Booked(s.stats, n.stats, s.threads[t], n.threads[t])
  {
  }

  lemma BooksKept(threads: seq<Pc>, before: seq<Stats>, after: seq<Stats>, t: nat, next: Pc, role: Role)
    requires t < |threads| && Booked(before, after, threads[t], next)
    requires Balanced(before[RoleIndex(role)], InFlight(threads, role))
    ensures Balanced(after[RoleIndex(role)], InFlight(threads[t := next], role))
  {
    InFlightUpdate(threads, t, next, role);
  }

  lemma StepKeeps(s: State, t: nat, a: Action)
    requires Inv(s) && t < |s.threads| && Step(s, t, a).Some?
    ensures Inv(Step(s, t, a).value)
  {
    MutexKept(s, t, a);
    WindowKept(s, t, a);
    StepBooks(s, t, a);
    var n := Step(s, t, a).value;
    forall role: Role
      ensures Balanced(n.stats[RoleIndex(role)], InFlight(n.threads, role))
    {
      BooksKept(s.threads, s.stats, n.stats, t, n.threads[t], role);
    }
  }

  function Initial(threads: nat, heap: Heap): State {
    State(seq(threads, _ => Outside), None, heap, 0, [Stats(0, 0, 0, 0), Stats(0, 0, 0, 0), Stats(0, 0, 0, 0)])
  }

  lemma {:induction false} NobodyInFlight(threads: seq<Pc>, role: Role)
    requires forall t :: 0 <= t < |threads| ==> threads[t] == Outside
    ensures InFlight(threads, role) == 0
  {
    if threads != [] {
      NobodyInFlight(threads[1..], role);
    }
  }

  lemma InitialInv(threads: nat, heap: Heap)
    ensures Inv(Initial(threads, heap))
  {
    forall role: Role { NobodyInFlight(Initial(threads, heap).threads, role); }
  }

  ghost predicate Moves(s: State, n: State) {
    |s.stats| == 3 && exists t: nat, a :: t < |s.threads| && Step(s, t, a) == Some(n)
  }

  ghost predicate Run(threads: nat, heap: Heap, states: seq<State>) {
    && states != [] && states[0] == Initial(threads, heap)
    && (forall i :: 0 <= i < |states| - 1 ==> Moves(states[i], states[i + 1]))
  }

  lemma {:induction false} RunKeeps(threads: nat, heap: Heap, states: seq<State>, i: nat)
    requires Run(threads, heap, states) && i < |states|
    ensures Inv(states[i])
  {
    if i == 0 {
      InitialInv(threads, heap);
    } else {
      RunKeeps(threads, heap, states, i - 1);
      assert Moves(states[i - 1], states[i - 1 + 1]);
      var t: nat, a :| t < |states[i - 1].threads| && Step(states[i - 1], t, a) == Some(states[i]);
      StepKeeps(states[i - 1], t, a);
    }
  }

  // ----- what it means -----

  /** In every state of every run each role's requests are accounted for, one by one. */
  lemma RequestsAreAccountedFor(threads: nat, heap: Heap, states: seq<State>, i: nat, role: Role)
    requires Run(threads, heap, states) && i < |states|
    ensures |states[i].stats| == 3
    ensures Balanced(states[i].stats[RoleIndex(role)], InFlight(states[i].threads, role))
  {
    RunKeeps(threads, heap, states, i);
  }

  /** Between one launch's memory test and its end no other thread tests, builds or counts a refusal. */
  lemma LaunchesExclude(threads: nat, heap: Heap, states: seq<State>, i: nat, t: nat, u: nat)
    requires Run(threads, heap, states) && i < |states| && t < |states[i].threads| && u < |states[i].threads|
    requires HoldsLock(states[i].threads[t]) && HoldsLock(states[i].threads[u])
    ensures t == u
  {
    RunKeeps(threads, heap, states, i);
  }

  /**
   A background launch, in any interleaving with other launches, leaves the
   32 KiB reserve free but for what the rest of the system took since its test.
   */
  lemma BackgroundLaunchesLeaveTheReserve(threads: nat, heap: Heap, states: seq<State>, i: nat, t: nat,
                                          ok: bool, used: nat, after: Heap)
    requires Run(threads, heap, states) && i < |states| && t < |states[i].threads| && |states[i].stats| == 3
    requires states[i].threads[t].Passed? && states[i].threads[t].req.role == BackgroundRole
    requires Step(states[i], t, Build(ok, used, after)).Some?
    ensures var n := Step(states[i], t, Build(ok, used, after)).value; n.heap.free + n.others >= RESERVE
  {
    RunKeeps(threads, heap, states, i);
    assert WindowOk(states[i], states[i].threads[t]);
  }

  // ----- one launch without interruption -----

  /** Thread t takes the steps one after the other, through these states. */
  ghost predicate Takes(states: seq<State>, t: nat, actions: seq<Action>) {
    && |states| == |actions| + 1
    && (forall i :: 0 <= i < |actions| ==>
          |states[i].stats| == 3 && t < |states[i].threads| && Step(states[i], t, actions[i]) == Some(states[i + 1]))
  }

  lemma StepTaken(states: seq<State>, t: nat, actions: seq<Action>, i: nat)
    requires Takes(states, t, actions) && i < |actions|
    ensures |states[i].stats| == 3 && t < |states[i].threads| && Step(states[i], t, actions[i]) == Some(states[i + 1])
  {
  }

  /** The counters of one role after a launch that came to these. */
  function Tallied(s: State, role: Role, successes: nat, denied: nat, failures: nat): seq<Stats>
    requires |s.stats| == 3
  {
    var was := s.stats[RoleIndex(role)];
    s.stats[RoleIndex(role) := Stats(was.requests + 1, was.successes + successes, was.denied + denied,
                                     was.failures + failures)]
  }

  /** The first four steps of a launch: it is counted under the mutex, and then tested. */
  lemma RequestsAreTested(states: seq<State>, t: nat, actions: seq<Action>, req: Request)
    requires Takes(states, t, actions) && |actions| >= 4 && req.kind != Admit
    requires actions[0] == Call(req) && actions[1] == Take && actions[2] == Record && actions[3] == Test
    ensures |states[0].stats| == 3 && t < |states[0].threads|
    ensures var s := states[0];
      s.threads[t] == Outside && s.mutex == None
      && states[4] == if Admitted(req.stack, req.role, req.external, s.heap)
           then State(s.threads[t := Passed(req)], Some(t), s.heap, 0, Tallied(s, req.role, 0, 0, 0))
           else State(s.threads[t := Refused(req)], Some(t), s.heap, s.others, Tallied(s, req.role, 0, 0, 0))
  {
    assert |states| == |actions| + 1;
    hide Takes, Admitted;
    var s := states[0];
    StepTaken(states, t, actions, 0);
    assert states[1] == s.(threads := s.threads[t := WaitLock(req)]);
    StepTaken(states, t, actions, 1);
    assert states[2] == s.(threads := s.threads[t := Locked(req)], mutex := Some(t));
    StepTaken(states, t, actions, 2);
    assert states[3] == State(s.threads[t := Recorded(req)], Some(t), s.heap, s.others,
                              Tallied(s, req.role, 0, 0, 0));
    StepTaken(states, t, actions, 3);
  }

  /**
   A launch that goes on to create its task was admitted by its test. It counts one request, and one success or
   failure as creating the task came to; the mutex is free again.
   */
  lemma LaunchesCountTheirOutcome(states: seq<State>, t: nat, req: Request, ok: bool, used: nat, heap: Heap)
    requires req.kind != Admit
    requires Takes(states, t, [Call(req), Take, Record, Test, Build(ok, used, heap), Unlock, Report])
    ensures |states[0].stats| == 3 && Admitted(req.stack, req.role, req.external, states[0].heap)
    ensures var s := states[0];
      states[7] == State(s.threads, None, heap, 0,
                         Tallied(s, req.role, if ok then 1 else 0, 0, if ok then 0 else 1))
  {
    var s, actions := states[0], [Call(req), Take, Record, Test, Build(ok, used, heap), Unlock, Report];
    assert |states| == |actions| + 1;
    hide Takes, Admitted;
    RequestsAreTested(states, t, actions, req);
    StepTaken(states, t, actions, 4);
    var counted := Tallied(s, req.role, 0, 0, 0);
    assert states[5] == State(s.threads[t := Made(req, ok)], Some(t), heap, 0, counted);
    StepTaken(states, t, actions, 5);
    assert states[6] == State(s.threads[t := Reporting(req, ok)], None, heap, 0, counted);
    StepTaken(states, t, actions, 6);
    assert s.threads[t := Outside] == s.threads;
  }

  /** A launch that is denied was not admitted. It counts one request and one denial, and takes no memory. */
  lemma LaunchesCountTheirDenial(states: seq<State>, t: nat, req: Request)
    requires req.kind != Admit && Takes(states, t, [Call(req), Take, Record, Test, Deny, Unlock])
    ensures |states[0].stats| == 3 && !Admitted(req.stack, req.role, req.external, states[0].heap)
    ensures states[6] == states[0].(stats := Tallied(states[0], req.role, 0, 1, 0))
  {
    var s, actions := states[0], [Call(req), Take, Record, Test, Deny, Unlock];
    assert |states| == |actions| + 1;
    hide Takes, Admitted;
    RequestsAreTested(states, t, actions, req);
    StepTaken(states, t, actions, 4);
    assert states[5] == State(s.threads[t := Unlocking(req)], Some(t), s.heap, s.others,
                              Tallied(s, req.role, 0, 1, 0));
    StepTaken(states, t, actions, 5);
    assert s.threads[t := Outside] == s.threads;
  }

  /** A test alone that succeeds leaves no trace. */
  lemma PassedTestsLeaveNoTrace(states: seq<State>, t: nat, req: Request)
    requires req.kind == Admit && Takes(states, t, [Call(req), Take, Test, Unlock])
    ensures |states[0].stats| == 3 && Admitted(req.stack, req.role, req.external, states[0].heap)
    ensures states[4] == states[0]
  {
    var s, actions := states[0], [Call(req), Take, Test, Unlock];
    assert |states| == |actions| + 1;
    hide Takes, Admitted;
    StepTaken(states, t, actions, 0);
    StepTaken(states, t, actions, 1);
    assert states[2] == s.(threads := s.threads[t := Locked(req)], mutex := Some(t));
    StepTaken(states, t, actions, 2);
    StepTaken(states, t, actions, 3);
    assert s.threads[t := Outside] == s.threads;
  }

  /** A test alone that fails counts one request and one denial. */
  lemma FailedTestsAreCounted(states: seq<State>, t: nat, req: Request)
    requires req.kind == Admit && Takes(states, t, [Call(req), Take, Test, Record, Deny, Unlock])
    ensures |states[0].stats| == 3 && !Admitted(req.stack, req.role, req.external, states[0].heap)
    ensures states[6] == states[0].(stats := Tallied(states[0], req.role, 0, 1, 0))
  {
    var s, actions := states[0], [Call(req), Take, Test, Record, Deny, Unlock];
    assert |states| == |actions| + 1;
    hide Takes, Admitted;
    StepTaken(states, t, actions, 0);
    StepTaken(states, t, actions, 1);
    assert states[2] == s.(threads := s.threads[t := Locked(req)], mutex := Some(t));
    StepTaken(states, t, actions, 2);
    StepTaken(states, t, actions, 3);
    assert states[4] == State(s.threads[t := Refused(req)], Some(t), s.heap, s.others, Tallied(s, req.role, 0, 0, 0));
    StepTaken(states, t, actions, 4);
    StepTaken(states, t, actions, 5);
    assert s.threads[t := Outside] == s.threads;
  }

  /** What a thread inside a launch does next. */
  function NextAction(pc: Pc, heap: Heap): Action {
    match pc
    case WaitLock(_) => Take
    case Locked(req) => if req.kind == Admit then Test else Record
    case Recorded(_) => Test
    case Passed(_) => Build(true, 0, heap)
    case Turned(_) => Record
    case Refused(_) => Deny
    case Made(_, _) => Unlock
    case Unlocking(_) => Unlock
    case _ => Report
  }

  /** No launch is stuck: its thread can take its next step unless it waits for the mutex, and then the holder can. */
  lemma LaunchesGoOn(s: State, t: nat)
    requires Inv(s) && t < |s.threads| && s.threads[t] != Outside
    ensures (s.threads[t].WaitLock? && s.mutex.Some?) || Step(s, t, NextAction(s.threads[t], s.heap)).Some?
    ensures s.mutex.Some? && s.mutex.value < |s.threads| ==>
      var u := s.mutex.value; !s.threads[u].WaitLock? && Step(s, u, NextAction(s.threads[u], s.heap)).Some?
  {
  }
}
