/**
 The serial life of one job: the reference against which the concurrent job
 manager is judged. A job is started, handles events, is stopped, one callback
 at a time; an incarnation is named by the number of starts and stops claimed
 before it (its epoch).
 */
module JobLifecycle {

  datatype Event =
    | StartBegin(epoch: nat)
    | StartEnd(epoch: nat, ok: bool)
    | Admit(epoch: nat)        // a tick has admitted an event to the incarnation
    | EventBegin(epoch: nat)
    | EventEnd(epoch: nat)
    | Credit(epoch: nat)       // a tick result is recorded for the incarnation
    | StopBegin(epoch: nat)
    | StopEnd(epoch: nat)
    | Retire(epoch: nat)       // the incarnation ends without a stop callback

  /** Where a job is in its serial life; `last` is the latest incarnation that came up. */
  datatype Phase =
    | Idle(last: nat)
    | Starting(epoch: nat, last: nat)
    | Up(epoch: nat)
    | Handling(epoch: nat, alive: bool, begun: bool)   // an event was admitted; its callback may have begun
    | Stopping(epoch: nat)
    | Broken

  function Next(p: Phase, ev: Event): Phase {
    match (p, ev)
    case (Idle(last), StartBegin(e)) => if last < e then Starting(e, last) else Broken
    case (Starting(e, last), StartEnd(x, ok)) =>
      if x != e then Broken else if ok then Up(e) else Idle(last)
    case (Up(e), Admit(x)) => if x == e then Handling(e, true, false) else Broken
    case (Up(e), Credit(x)) => if x == e then p else Broken
    case (Up(e), StopBegin(x)) => if x == e then Stopping(e) else Broken
    case (Up(e), Retire(x)) => if x == e then Idle(e) else Broken
    case (Handling(e, alive, begun), EventBegin(x)) =>
      if x == e && !begun then Handling(e, alive, true) else Broken
    case (Handling(e, alive, begun), EventEnd(x)) =>
      if x != e || !begun then Broken else if alive then Up(e) else Idle(e)
    case (Handling(e, alive, begun), Retire(x)) =>
      if x == e && alive then Handling(e, false, begun) else Broken
    case (Stopping(e), StopEnd(x)) => if x == e then Idle(e) else Broken
    case _ => Broken
  }

  function PhaseOf(log: seq<Event>): Phase {
    if log == [] then Idle(0) else Next(PhaseOf(log[..|log| - 1]), log[|log| - 1])
  }

  /** A log is serial when no callback ever began or ended out of turn. */
  predicate Serial(log: seq<Event>) {
    PhaseOf(log) != Broken
  }

  lemma PhaseSnoc(log: seq<Event>, ev: Event)
    ensures PhaseOf(log + [ev]) == Next(PhaseOf(log), ev)
  {
    assert (log + [ev])[..|log|] == log;
  }

  lemma {:induction false} SerialPrefix(log: seq<Event>, n: nat)
    requires Serial(log) && n <= |log|
    ensures Serial(log[..n])
    decreases |log|
  {
    if n == |log| {
      assert log[..n] == log;
    } else {
      SerialPrefix(log[..|log| - 1], n);
      assert log[..|log| - 1][..n] == log[..n];
    }
  }

  /** The newest incarnation that has come up, if the phase has one. */
  function Newest(p: Phase): nat {
    match p
    case Idle(last) => last
    case Starting(_, last) => last
    case Up(e) => e
    case Handling(e, _, _) => e
    case Stopping(e) => e
    case Broken => 0
  }

  /** Everything the phase remembers about its log. */
  lemma {:induction false} PhaseRemembers(log: seq<Event>)
    requires Serial(log)
    ensures var p := PhaseOf(log);
      && (forall e: nat, ok :: StartEnd(e, ok) in log && ok ==> e <= Newest(p))
      && (forall e: nat :: StopBegin(e) in log ==> e <= Newest(p))
      && (forall e: nat :: Retire(e) in log ==> e <= Newest(p))
      && (p.Up? || p.Handling? ==> StartEnd(p.epoch, true) in log && StopBegin(p.epoch) !in log)
      && (p.Up? || (p.Handling? && p.alive) || p.Stopping? ==> Retire(p.epoch) !in log)
  {
    if log != [] {
      var init, ev := log[..|log| - 1], log[|log| - 1];
      assert log == init + [ev];
      PhaseRemembers(init);
    }
  }

  /** The incarnation has come up, has not ended silently, and its stop callback has not begun. */
  predicate Alive(log: seq<Event>, epoch: nat) {
    StartEnd(epoch, true) in log && StopBegin(epoch) !in log && Retire(epoch) !in log
  }

  lemma StopIsFresh(log: seq<Event>, i: nat)
    requires Serial(log) && i < |log| && log[i].StopBegin?
    ensures StartEnd(log[i].epoch, true) in log[..i] && log[i] !in log[..i]
  {
    SerialPrefix(log, i + 1);
    SerialPrefix(log, i);
    assert log[..i + 1] == log[..i] + [log[i]];
    PhaseSnoc(log[..i], log[i]);
    PhaseRemembers(log[..i]);
  }

  /**
   In a serial log a stop callback runs only for an incarnation whose start
   returned OK, only after that start, and at most once for it.
   */
  lemma StopsMatchStarts(log: seq<Event>, i: nat)
    requires Serial(log) && i < |log| && log[i].StopBegin?
    ensures exists k :: 0 <= k < i && log[k] == StartEnd(log[i].epoch, true)
    ensures forall k :: 0 <= k < |log| && log[k] == log[i] ==> k == i
  {
    forall k | 0 <= k < |log| && log[k] == log[i]
      ensures k == i
    {
      if i < k {
        assert log[..k][i] == log[i];
        StopIsFresh(log, k);
      } else if k < i {
        assert log[..i][k] == log[k];
        StopIsFresh(log, i);
      }
    }
    StopIsFresh(log, i);
  }

  /**
   Callbacks of a serial log never nest or interleave: whatever callback began
   at position i has ended before any other begins.
   */
  lemma CallbacksTakeTurns(log: seq<Event>, i: nat)
    requires Serial(log) && i + 1 < |log|
    ensures log[i].StartBegin? ==> log[i + 1].StartEnd? && log[i + 1].epoch == log[i].epoch
    ensures log[i].StopBegin? ==> log[i + 1] == StopEnd(log[i].epoch)
    ensures log[i].Admit? ==>
      log[i + 1] == EventBegin(log[i].epoch) || log[i + 1] == Retire(log[i].epoch)
    ensures log[i].EventBegin? ==>
      log[i + 1] == EventEnd(log[i].epoch) || log[i + 1] == Retire(log[i].epoch)
    ensures log[i].EventBegin? && log[i + 1].Retire? && i + 2 < |log| ==>
      log[i + 2] == EventEnd(log[i].epoch)
  {
    SerialPrefix(log, i);
    SerialPrefix(log, i + 1);
    SerialPrefix(log, i + 2);
    assert log[..i + 1] == log[..i] + [log[i]];
    PhaseSnoc(log[..i], log[i]);
    assert log[..i + 2] == log[..i + 1] + [log[i + 1]];
    PhaseSnoc(log[..i + 1], log[i + 1]);
    if i + 2 < |log| {
      SerialPrefix(log, i + 3);
      assert log[..i + 3] == log[..i + 2] + [log[i + 2]];
      PhaseSnoc(log[..i + 2], log[i + 2]);
    }
  }

  /** What an event callback that has not begun looks like from the end of the log. */
  lemma AdmittedLately(log: seq<Event>, e: nat)
    requires Serial(log) && PhaseOf(log).Handling? && !PhaseOf(log).begun && PhaseOf(log).epoch == e
    ensures |log| >= 1
    ensures log[|log| - 1] == Admit(e) || (|log| >= 2 && log[|log| - 1] == Retire(e) && log[|log| - 2] == Admit(e))
  {
    var n := |log| - 1;
    if log[n].Retire? {
      assert PhaseOf(log[..n]).Handling? && !PhaseOf(log[..n]).begun;
      assert log[..n][..n - 1] == log[..n - 1];
    }
  }

  /**
   An event callback begins only where an event was just admitted to the incarnation,
   which had come up, had not ended and was not being stopped; the one thing that may
   have happened in between is that the incarnation ended silently.
   */
  lemma EventsAreAdmitted(log: seq<Event>, i: nat)
    requires Serial(log) && i < |log|
    ensures log[i].EventBegin? ==>
      (i >= 1 && log[i - 1] == Admit(log[i].epoch))
      || (i >= 2 && log[i - 1] == Retire(log[i].epoch) && log[i - 2] == Admit(log[i].epoch))
    ensures log[i].Admit? ==> Alive(log[..i], log[i].epoch)
  {
    SerialPrefix(log, i + 1);
    SerialPrefix(log, i);
    assert log[..i + 1] == log[..i] + [log[i]];
    PhaseSnoc(log[..i], log[i]);
    PhaseRemembers(log[..i]);
    if log[i].EventBegin? {
      AdmittedLately(log[..i], log[i].epoch);
    }
  }

  /** A tick result is credited only to an incarnation that is up: not ended and not being stopped. */
  lemma CreditsGoToTheLiving(log: seq<Event>, i: nat)
    requires Serial(log) && i < |log| && log[i].Credit?
    ensures Alive(log[..i], log[i].epoch)
  {
    SerialPrefix(log, i + 1);
    SerialPrefix(log, i);
    assert log[..i + 1] == log[..i] + [log[i]];
    PhaseSnoc(log[..i], log[i]);
    PhaseRemembers(log[..i]);
  }

  /** An admitted event whose callback has not begun is the last thing in the log of a live incarnation. */
  lemma AdmittedLast(log: seq<Event>)
    requires Serial(log)
    ensures forall e: nat :: PhaseOf(log) == Handling(e, true, false) <==> log != [] && log[|log| - 1] == Admit(e)
  {
  }

  /**
   When an incarnation ends silently, one more event callback of it can begin, and only
   right afterwards: just when an event was admitted right before.
   */
  lemma EventsAfterAnEnd(log: seq<Event>, r: nat)
    requires Serial(log) && r < |log| && log[r].Retire?
    ensures (exists n :: r < n < |log| && log[n] == EventBegin(log[r].epoch))
       <==> r + 1 < |log| && r > 0 && log[r - 1] == Admit(log[r].epoch)
    ensures forall n :: r < n < |log| && log[n] == EventBegin(log[r].epoch) ==> n == r + 1
  {
    var e := log[r].epoch;
    forall n | r < n < |log| && log[n] == EventBegin(e)
      ensures n == r + 1 && r > 0 && log[r - 1] == Admit(e)
    {
      EventsAreAdmitted(log, n);
      var a := if log[n - 1] == Admit(e) then n - 1 else n - 2;
      if r < a {
        InPrefix(log, r, a);
      }
      EventsAreAdmitted(log, a);
    }
    if r + 1 < |log| && r > 0 && log[r - 1] == Admit(e) {
      EndedCallBegins(log, r);
    }
  }

  lemma InPrefix(log: seq<Event>, i: nat, n: nat)
    requires i < n <= |log|
    ensures log[i] in log[..n]
  {
    assert log[..n][i] == log[i];
  }

  lemma EndedCallBegins(log: seq<Event>, r: nat)
    requires Serial(log) && 0 < r && r + 1 < |log| && log[r].Retire? && log[r - 1] == Admit(log[r].epoch)
    ensures log[r + 1] == EventBegin(log[r].epoch)
  {
    SerialPrefix(log, r);
    SerialPrefix(log, r + 1);
    SerialPrefix(log, r + 2);
    AdmittedLast(log[..r]);
    assert log[..r + 1] == log[..r] + [log[r]];
    PhaseSnoc(log[..r], log[r]);
    assert log[..r + 2] == log[..r + 1] + [log[r + 1]];
    PhaseSnoc(log[..r + 1], log[r + 1]);
  }
}
