/** The chat application's ring of the last 80 messages. */
module ChatRing {
  import opened Wrappers
  import opened ChatText

  const CAPACITY := 80
  const FROM_MAX := 64
  const TEXT_MAX := 4096

  datatype Kind = Status | Chat | Error

  datatype Delivery = Received | Queued | Sending | Sent | Delivered | Failed | Cancelled

  datatype Message = Message(kind: Kind, from: Text, text: Text, system: bool, unread: bool,
                             outbound: bool, delivery: Delivery, encrypted: bool)

  /** strlcpy into a field of `size` bytes. */
  function Clip(t: Text, size: nat): Text
    requires size > 0
  {
    if |t| < size then t else t[..size - 1]
  }

  /** What is stored of an event; the fields append does not know are zero. */
  function Stored(kind: Kind, from: Text, text: Text, system: bool, unread: bool): Message {
    Message(kind, Clip(from, FROM_MAX), Clip(text, TEXT_MAX), system, system && unread, false, Received, false)
  }

  // ----- the reference: a bounded list -----

  /** A system event that repeats the newest message is not stored again. */
  predicate Repeats(ms: seq<Message>, kind: Kind, from: Text, text: Text, system: bool) {
    system && ms != [] &&
    var newest := ms[|ms| - 1];
    newest.system && newest.kind == kind && newest.from == from && newest.text == text
  }

  function Last<T>(n: nat, s: seq<T>): seq<T> {
    if |s| <= n then s else s[|s| - n..]
  }

  /** An event as the application reports it. */
  datatype Event = Event(kind: Kind, from: Text, text: Text, system: bool, unread: bool)

  function StoredEvent(e: Event): Message {
    Stored(e.kind, e.from, e.text, e.system, e.unread)
  }

  /** The unbounded log of all accepted events. */
  function Log(es: seq<Event>): seq<Message> {
    if es == [] then []
    else
      var before, e := Log(es[..|es| - 1]), es[|es| - 1];
      if Repeats(before, e.kind, e.from, e.text, e.system) then before else before + [StoredEvent(e)]
  }

  function Accept(ms: seq<Message>, e: Event): seq<Message> {
    if Repeats(ms, e.kind, e.from, e.text, e.system) then ms else Last(CAPACITY, ms + [StoredEvent(e)])
  }

  function AcceptAll(es: seq<Event>): seq<Message> {
    if es == [] then [] else Accept(AcceptAll(es[..|es| - 1]), es[|es| - 1])
  }

  /** Appending one event after the other keeps exactly the last 80 accepted ones, in order. */
  lemma {:induction false} RingKeepsTheLast(es: seq<Event>)
    ensures AcceptAll(es) == Last(CAPACITY, Log(es))
  {
    if es != [] {
      RingKeepsTheLast(es[..|es| - 1]);
    }
  }

  /** The newest message says the same: it is a system message of that kind, name and text. */
  ghost predicate SaysTheSame(newest: Message, e: Event) {
    e.system && newest.system && newest.kind == e.kind && newest.from == e.from && newest.text == e.text
  }

  /** Of a text, the most that an array holds next to its terminator. */
  ghost predicate IsCut(stored: Text, t: Text, most: nat) {
    stored <= t && |stored| == if |t| <= most then |t| else most
  }

  /** A stored message has what its event says, and is neither outbound nor encrypted. */
  ghost predicate Records(m: Message, e: Event) {
    && m.kind == e.kind && m.system == e.system && (m.unread <==> e.system && e.unread)
    && IsCut(m.from, e.from, 63) && IsCut(m.text, e.text, 4095)
    && !m.outbound && !m.encrypted && m.delivery == Received
  }

  /**
   What an event does to the messages: nothing if it repeats the newest; else it becomes the newest, behind
   all the others, or behind all but the oldest of 80.
   */
  lemma EventsBecomeTheNewest(ms: seq<Message>, e: Event)
    requires |ms| <= 80
    ensures var now := Accept(ms, e);
      if ms != [] && SaysTheSame(ms[|ms| - 1], e) then now == ms
      else
        && now != [] && Records(now[|now| - 1], e)
        && now[..|now| - 1] == if |ms| < 80 then ms else ms[1..]
  {
    var m := StoredEvent(e);
    if |ms| == 80 {
      assert (ms + [m])[1..] == ms[1..] + [m];
    } else {
      assert (ms + [m])[..|ms|] == ms;
    }
  }

  /** Compaction keeps a message exactly if it is a system message, and keeps their order. */
  lemma SystemOnlyOfOne(m: Message)
    ensures SystemOnly([m]) == if m.system then [m] else []
  {
    assert [m][..0] == [] && SystemOnly([]) == [];
  }

  lemma {:induction false} SystemOnlyJoins(a: seq<Message>, b: seq<Message>)
    ensures SystemOnly(a + b) == SystemOnly(a) + SystemOnly(b)
    decreases |b|
  {
    if b == [] {
      assert a + b == a;
    } else {
      var init, last := b[..|b| - 1], if b[|b| - 1].system then [b[|b| - 1]] else [];
      assert (a + b)[..|a + b| - 1] == a + init;
      assert SystemOnly(a + b) == SystemOnly(a + init) + last && SystemOnly(b) == SystemOnly(init) + last;
      hide SystemOnly;
      SystemOnlyJoins(a, init);
      assert SystemOnly(a) + SystemOnly(init) + last == SystemOnly(a) + (SystemOnly(init) + last);
    }
  }

  function SystemOnly(ms: seq<Message>): (r: seq<Message>)
    ensures |r| <= |ms|
  {
    if ms == [] then []
    else SystemOnly(ms[..|ms| - 1]) + (if ms[|ms| - 1].system then [ms[|ms| - 1]] else [])
  }

  lemma SystemOnlySnoc(ms: seq<Message>, n: nat)
    requires n < |ms|
    ensures SystemOnly(ms[..n + 1]) == SystemOnly(ms[..n]) + (if ms[n].system then [ms[n]] else [])
  {
    assert ms[..n + 1][..n] == ms[..n];
  }

  // ----- the ring -----

  function Slot(oldest: nat, i: nat): nat {
    (oldest + i) % CAPACITY
  }

  /** All slots in reading order from `oldest`. */
  function Unrolled(slots: seq<Message>, oldest: nat): seq<Message>
    requires |slots| == CAPACITY
  {
    seq(CAPACITY, i requires 0 <= i < CAPACITY => slots[Slot(oldest, i)])
  }

  lemma WriteUnrolled(slots: seq<Message>, oldest: nat, i: nat, m: Message)
    requires |slots| == CAPACITY && i < CAPACITY
    ensures Unrolled(slots[Slot(oldest, i) := m], oldest) == Unrolled(slots, oldest)[i := m]
  {
  }

  lemma PutWithRoom(slots: seq<Message>, oldest: nat, count: nat, m: Message)
    requires |slots| == CAPACITY && count < CAPACITY
    ensures Unrolled(slots[Slot(oldest, count) := m], oldest)[..count + 1] == Unrolled(slots, oldest)[..count] + [m]
  {
    WriteUnrolled(slots, oldest, count, m);
  }

  /** The oldest message makes room, and reading starts one slot later. */
  lemma PutWhenFull(slots: seq<Message>, oldest: nat, m: Message)
    requires |slots| == CAPACITY && oldest < CAPACITY
    ensures Unrolled(slots[oldest := m], Slot(oldest, 1)) == Unrolled(slots, oldest)[1..] + [m]
  {
  }

  /** Before position i is read: the system messages so far in front, everything unread untouched. */
  ghost predicate Compacting(all: seq<Message>, now: seq<Message>, i: nat, kept: nat) {
    && kept <= i <= |all| == |now|
    && now[..kept] == SystemOnly(all[..i]) && now[i..] == all[i..]
  }

  lemma CompactOne(all: seq<Message>, now: seq<Message>, i: nat, kept: nat)
    requires Compacting(all, now, i, kept) && i < |all|
    ensures now[i] == all[i]
    ensures if all[i].system then Compacting(all, now[kept := all[i]], i + 1, kept + 1)
            else Compacting(all, now, i + 1, kept)
  {
    SystemOnlySnoc(all, i);
    assert now[i] == now[i..][0] && all[i] == all[i..][0];
    assert now[i + 1..] == now[i..][1..] && all[i + 1..] == all[i..][1..];
    var next := now[kept := all[i]];
    assert next[..kept + 1] == now[..kept] + [all[i]] && next[i + 1..] == now[i + 1..];
  }

  function OldestOf(head: nat, count: nat): (o: nat)
    requires head < CAPACITY && count <= CAPACITY
    ensures o < CAPACITY && Slot(o, count) == head
  {
    (head + CAPACITY - count) % CAPACITY
  }

  lemma OldestAfterPut(head: nat, count: nat)
    requires head < CAPACITY && count <= CAPACITY
    ensures count < CAPACITY ==> OldestOf((head + 1) % CAPACITY, count + 1) == OldestOf(head, count)
    ensures count == CAPACITY ==> OldestOf(head, count) == head
                                  && OldestOf((head + 1) % CAPACITY, count) == Slot(head, 1)
  {
  }

  /** The messages of a ring in order, oldest first. */
  function Held(slots: seq<Message>, head: nat, count: nat): seq<Message>
    requires |slots| == CAPACITY && head < CAPACITY && count <= CAPACITY
  {
    Unrolled(slots, OldestOf(head, count))[..count]
  }

  lemma PutHolds(slots: seq<Message>, head: nat, count: nat, m: Message)
    requires |slots| == CAPACITY && head < CAPACITY && count <= CAPACITY
    ensures Held(slots[head := m], (head + 1) % CAPACITY, if count < CAPACITY then count + 1 else count)
         == Last(CAPACITY, Held(slots, head, count) + [m])
  {
    OldestAfterPut(head, count);
    if count < CAPACITY {
      PutWithRoom(slots, OldestOf(head, count), count, m);
    } else {
      PutWhenFull(slots, head, m);
    }
  }

  lemma KeptHolds(slots: seq<Message>, oldest: nat, kept: nat)
    requires |slots| == CAPACITY && oldest < CAPACITY && kept <= CAPACITY
    ensures Held(slots, Slot(oldest, kept), kept) == Unrolled(slots, oldest)[..kept]
  {
  }

  class Ring {
    const slots: array<Message>
    var head: nat
    var count: nat

    ghost predicate Valid()
      reads this
    {
      slots.Length == CAPACITY && head < CAPACITY && count <= CAPACITY
    }

    function Oldest(): nat
      reads this
      requires Valid()
    {
      OldestOf(head, count)
    }

    ghost function Contents(): (ms: seq<Message>)
      reads this, slots
      requires Valid()
    {
      Held(slots[..], head, count)
    }

    constructor ()
      ensures Valid() && fresh(slots) && Contents() == []
    {
      slots := new Message[CAPACITY](_ => Stored(Status, [], [], false, false));
      head, count := 0, 0;
    }

    /** chat_append_event_full */
    method Append(kind: Kind, from: Text, text: Text, system: bool, unread: bool)
      requires Valid()
      modifies this`head, this`count, slots
      ensures Valid() && Contents() == Accept(old(Contents()), Event(kind, from, text, system, unread))
    {
      if system && count > 0 {
        var newest := (head + CAPACITY - 1) % CAPACITY;
        assert newest == Slot(Oldest(), count - 1);
        var previous := slots[newest];
        if previous.system && previous.kind == kind && previous.from == from && previous.text == text {
          return;
        }
      }
      Put(Stored(kind, from, text, system, unread));
    }

    method Put(m: Message)
      requires Valid()
      modifies this`head, this`count, slots
      ensures Valid() && Contents() == Last(CAPACITY, old(Contents()) + [m])
    {
      PutHolds(slots[..], head, count, m);
      ghost var before := slots[..];
      slots[head] := m;
      assert slots[..] == before[head := m];
      head := (head + 1) % CAPACITY;
      if count < CAPACITY {
        count := count + 1;
      }
    }

    /** chat_message_at */
    method MessageAt(i: nat) returns (m: Option<Message>)
      requires Valid()
      ensures m == if i < |Contents()| then Some(Contents()[i]) else None
    {
      if i >= count {
        return None;
      }
      var index := (Oldest() + i) % CAPACITY;
      m := Some(slots[index]);
    }

    /**
     The compaction of chat_reconcile_messaging, in place: the messages not yet
     read stay where they are, also across the end of the array.
     */
    method KeepSystem()
      requires Valid()
      modifies this`head, this`count, slots
      ensures Valid() && Contents() == SystemOnly(old(Contents()))
    {
      hide SystemOnly;
      var oldest := Oldest();
      ghost var all, before := Unrolled(slots[..], oldest), Contents();
      var kept: nat, i: nat := 0, 0;
      while i < count
        invariant Valid() && count == old(count) && i <= count
        invariant Compacting(all, Unrolled(slots[..], oldest), i, kept)
      {
        kept := KeepOne(oldest, i, kept, all);
        i := i + 1;
      }
      assert before == all[..i];
      KeptHolds(slots[..], oldest, kept);
      count := kept;
      head := (oldest + kept) % CAPACITY;
    }

    /** One message is looked at, and moved forward if it is a system message. */
    method KeepOne(oldest: nat, i: nat, kept: nat, ghost all: seq<Message>) returns (n: nat)
      requires Valid() && i < CAPACITY && Compacting(all, Unrolled(slots[..], oldest), i, kept)
      modifies slots
      ensures Compacting(all, Unrolled(slots[..], oldest), i + 1, n)
    {
      CompactOne(all, Unrolled(slots[..], oldest), i, kept);
      var read := (oldest + i) % CAPACITY;
      n := kept;
      if slots[read].system {
        var write := (oldest + kept) % CAPACITY;
        WriteUnrolled(slots[..], oldest, kept, slots[read]);
        Copy(write, read);
        n := kept + 1;
      }
    }

    method Copy(write: nat, read: nat)
      requires Valid() && write < CAPACITY && read < CAPACITY
      modifies slots
      ensures slots[..] == old(slots[..])[write := old(slots[read])]
    {
      if write != read {
        slots[write] := slots[read];
      }
    }
  }
}
