/** The launch functions one call at a time: counters updated in place under the launch mutex. */
module TaskLedger {
  import opened TaskAdmission
  import P = LaunchProtocol

  datatype Launch = Launched | Denied | BuildFailed | Invalid

  /** What one launch call with that outcome does to the counters of its role. */
  function Entered(st: P.Stats, outcome: Launch): (now: P.Stats)
    ensures now.requests == st.requests + if outcome == Invalid then 0 else 1
    ensures now.successes == st.successes + if outcome == Launched then 1 else 0
    ensures now.denied == st.denied + if outcome == Denied then 1 else 0
    ensures now.failures == st.failures + if outcome == BuildFailed then 1 else 0
  {
    match outcome
    case Invalid => st
    case Launched => st.(requests := st.requests + 1, successes := st.successes + 1)
    case Denied => st.(requests := st.requests + 1, denied := st.denied + 1)
    case BuildFailed => st.(requests := st.requests + 1, failures := st.failures + 1)
  }

  class Ledger {
    const stats: array<P.Stats>
    const externalSupported: bool
    var locked: bool

    ghost predicate Valid()
      reads this
    {
      stats.Length == 3
    }

    /** No launch is under way, and every request of every role has its outcome. */
    ghost predicate Settled()
      reads this, stats
    {
      Valid() && !locked && forall role: Role :: P.Balanced(stats[P.RoleIndex(role)], 0)
    }

    constructor (externalSupported: bool)
      ensures Settled() && fresh(stats) && this.externalSupported == externalSupported
    {
      this.externalSupported, locked := externalSupported, false;
      stats := new P.Stats[3](_ => P.Stats(0, 0, 0, 0));
    }

    /** task_record_request */
    method RecordRequest(role: Role)
      requires Valid()
      modifies stats
      ensures var i := P.RoleIndex(role); var was := old(stats[P.RoleIndex(role)]);
        stats[..] == old(stats[..])[i := was.(requests := was.requests + 1)]
    {
      var i := P.RoleIndex(role);
      stats[i] := stats[i].(requests := stats[i].requests + 1);
    }

    /** task_record_success and task_record_failure */
    method RecordOutcome(role: Role, success: bool, denied: bool)
      requires Valid()
      modifies stats
      ensures var i := P.RoleIndex(role); var was := old(stats[P.RoleIndex(role)]);
        stats[..] == old(stats[..])[i := if success then was.(successes := was.successes + 1)
                                         else if denied then was.(denied := was.denied + 1)
                                         else was.(failures := was.failures + 1)]
    {
      var i := P.RoleIndex(role);
      if success {
        stats[i] := stats[i].(successes := stats[i].successes + 1);
      } else if denied {
        stats[i] := stats[i].(denied := stats[i].denied + 1);
      } else {
        stats[i] := stats[i].(failures := stats[i].failures + 1);
      }
    }

    /**
     The create functions; `built` is whether FreeRTOS succeeds. The
     outcome is the admission's and FreeRTOS's together, and is counted once.
     */
    method Create(stack: Size, role: Role, external: bool, heap: Heap, built: bool) returns (outcome: Launch)
      requires Settled()
      modifies this`locked, stats
      ensures Settled()
      ensures outcome == if stack == 0 then Invalid
                         else if !Admitted(stack, role, external && externalSupported, heap) then Denied
                         else if built then Launched else BuildFailed
      ensures stats[..] == old(stats[..])[P.RoleIndex(role) := Entered(old(stats[P.RoleIndex(role)]), outcome)]
    {
      if stack == 0 {
        return Invalid;
      }
      assert P.Balanced(stats[P.RoleIndex(role)], 0);
      locked := true;
      RecordRequest(role);
      var admitted := CanCreate(stack, role, external, externalSupported, heap);
      if !admitted {
        RecordOutcome(role, false, true);
        locked := false;
        return Denied;
      }
      locked := false;
      RecordOutcome(role, built, false);
      outcome := if built then Launched else BuildFailed;
    }

    /** solar_os_task_admit: a refused test counts as a denied request, a passed one leaves no trace. */
    method Admit(stack: Size, role: Role, external: bool, heap: Heap) returns (admitted: bool)
      requires Settled()
      modifies this`locked, stats
      ensures Settled()
      ensures admitted <==> stack != 0 && Admitted(stack, role, external && externalSupported, heap)
      ensures stats[..] == old(stats[..])[P.RoleIndex(role) :=
                Entered(old(stats[P.RoleIndex(role)]), if stack == 0 || admitted then Invalid else Denied)]
    {
      if stack == 0 {
        return false;
      }
      assert P.Balanced(stats[P.RoleIndex(role)], 0);
      locked := true;
      admitted := CanCreate(stack, role, external, externalSupported, heap);
      if !admitted {
        RecordRequest(role);
        RecordOutcome(role, false, true);
      }
      locked := false;
    }

    /** solar_os_task_admit_managed: on success the mutex stays taken and the request open. */
    method AdmitManaged(stack: Size, role: Role, external: bool, heap: Heap) returns (admitted: bool)
      requires Settled()
      modifies this`locked, stats
      ensures Valid() && locked == admitted
      ensures admitted <==> stack != 0 && Admitted(stack, role, external && externalSupported, heap)
      ensures forall other: Role :: P.Balanced(stats[P.RoleIndex(other)], if admitted && other == role then 1 else 0)
      ensures var i := P.RoleIndex(role); var was := old(stats[P.RoleIndex(role)]);
        stats[..] == old(stats[..])[i := if admitted then was.(requests := was.requests + 1)
                                         else Entered(was, if stack == 0 then Invalid else Denied)]
    {
      if stack == 0 {
        return false;
      }
      assert P.Balanced(stats[P.RoleIndex(role)], 0);
      locked := true;
      RecordRequest(role);
      admitted := CanCreate(stack, role, external, externalSupported, heap);
      if !admitted {
        RecordOutcome(role, false, true);
        locked := false;
      }
    }

    /** solar_os_task_note_managed_result closes what an admitted managed launch left open. */
    method NoteManagedResult(role: Role, success: bool)
      requires Valid() && locked
      requires forall other: Role :: P.Balanced(stats[P.RoleIndex(other)], if other == role then 1 else 0)
      modifies this`locked, stats
      ensures Settled()
      ensures var i := P.RoleIndex(role); var was := old(stats[P.RoleIndex(role)]);
        stats[..] == old(stats[..])[i := if success then was.(successes := was.successes + 1)
                                         else was.(failures := was.failures + 1)]
    {
      locked := false;
      assert P.Balanced(stats[P.RoleIndex(role)], 1);
      RecordOutcome(role, success, false);
    }
  }
}
