/** The reader/writer lock of a ramdisk (lab2/osprd.c) as a state machine. The kernel it is written
    for has one processor and does not preempt (lab2/spinlock.h), so that what a process does
    between two points at which it can be descheduled is one step. */
module TicketLock {

  /** An open file of the device. locked is its F_OSPRD_LOCKED flag. */
  datatype File = File(writable: bool, locked: bool)

  /** A process that blocks in ACQUIRE, with its ticket. */
  datatype Wait = Wait(ticket: nat, file: nat)

  /** head is the next ticket to be handed out, tail the ticket being served. writePid and readPids
      are what the deadlock checks look at. granted is the history of tickets with which ACQUIRE has
      got the lock, refused that of tickets it was refused with. */
  datatype Device = Device(head: nat, tail: nat, writers: int, readers: int, invalid: seq<nat>, files: seq<File>,
                           writePid: int, readPids: seq<nat>,
                           waiting: map<nat, Wait>, granted: seq<nat>, refused: seq<nat>)

  /** Process numbers are positive. */
  datatype Event =
    | Open(writable: bool)
    | Acquire(p: nat, f: nat)
    | Resume(p: nat, interrupted: bool)
    | TryAcquire(f: nat)
    | Release(f: nat)
    | Close(p: nat, f: nat)

  /** No process has number 0, with which the number of the writer starts. */
  function Setup(): Device {
    Device(0, 0, 0, 0, [], [], 0, [], map[], [], [])
  }

  /** A process that asks for a lock again after it got it for writing. */
  predicate RefusedAtOnce(d: Device, p: nat) {
    p == d.writePid
  }

  /** A process that asks for a lock for writing after it got one for reading. It has a ticket by then. */
  predicate RefusedLate(d: Device, p: nat, f: nat)
    requires f < |d.files|
  {
    p != d.writePid && d.files[f].writable && p in d.readPids
  }

  /** The loop of osprd_close_last over the list of readers: it takes out a process that is not the first
      one of the list. */
  function Unlisted(pids: seq<nat>, p: nat): seq<nat> {
    if pids == [] then [] else [pids[0]] + (if pids[0] == p then pids[1..] else Without(pids[1..], p))
  }

  function Without(pids: seq<nat>, p: nat): seq<nat> {
    if pids == [] then [] else if pids[0] == p then pids[1..] else [pids[0]] + Without(pids[1..], p)
  }

  /** The condition that ACQUIRE waits for. */
  predicate MayEnter(d: Device, t: nat, f: nat)
    requires f < |d.files|
  {
    d.writers == 0 && (d.files[f].writable ==> d.readers == 0) && t == d.tail
  }

  /** One pass over the tickets of interrupted processes. */
  function Skipped(tail: nat, invalid: seq<nat>): nat
    decreases invalid
  {
    if invalid == [] then tail else Skipped(if invalid[0] == tail then tail + 1 else tail, invalid[1..])
  }

  /** One pass over the first n entries of the list, left to right: entry at[j] is the first one behind entry
      at[j - 1] that is the ticket then at the tail, and behind the last of them there is none. */
  ghost predicate OnePass(tail: nat, invalid: seq<nat>, n: nat, at: seq<nat>, tail': nat) {
    && n <= |invalid| && tail' == tail + |at|
    && (forall j :: 0 <= j < |at| ==> at[j] < n && invalid[at[j]] == tail + j)
    && (forall i, j :: 0 <= i < j < |at| ==> at[i] < at[j])
    && (forall j, k :: 0 <= j < |at| && 0 <= k < at[j] && invalid[k] == tail + j ==> Before(k, at, j))
    && (forall k :: 0 <= k < n && invalid[k] == tail' ==> Before(k, at, |at|))
  }

  ghost predicate PassEnds(tail: nat, invalid: seq<nat>, tail': nat) {
    exists at :: OnePass(tail, invalid, |invalid|, at, tail')
  }

  /** Entry k is not behind the first j steps. */
  predicate Before(k: nat, at: seq<nat>, j: nat)
    requires j <= |at|
  {
    j > 0 && k < at[j - 1]
  }

  lemma SkippedNext(tail: nat, invalid: seq<nat>, i: nat)
    requires i <= |invalid|
    ensures Skipped(tail, invalid[i..]) ==
            if i == |invalid| then tail else Skipped(if invalid[i] == tail then tail + 1 else tail, invalid[i + 1..])
  {
    if i < |invalid| {
      assert invalid[i..][0] == invalid[i] && invalid[i..][1..] == invalid[i + 1..];
    }
  }

  lemma NothingPassed(tail: nat, invalid: seq<nat>)
    ensures OnePass(tail, invalid, 0, [], tail)
  {
  }

  lemma PassGoesOn(tail: nat, invalid: seq<nat>, n: nat, at: seq<nat>, tail': nat)
    requires OnePass(tail, invalid, n, at, tail') && n < |invalid|
    ensures invalid[n] != tail' ==> OnePass(tail, invalid, n + 1, at, tail')
    ensures invalid[n] == tail' ==> OnePass(tail, invalid, n + 1, at + [n], tail' + 1)
  {
    if invalid[n] == tail' {
      var at' := at + [n];
      forall j, k | 0 <= j < |at'| && 0 <= k < at'[j] && invalid[k] == tail + j
        ensures Before(k, at', j)
      {
        assert Before(k, at, j);
      }
      forall k | 0 <= k < n + 1 && invalid[k] == tail' + 1
        ensures Before(k, at', |at'|)
      {
      }
    }
  }

  function Locked(d: Device, f: nat): Device
    requires f < |d.files|
  {
    d.(files := d.files[f := d.files[f].(locked := true)],
       writers := if d.files[f].writable then d.writers + 1 else d.writers,
       readers := if d.files[f].writable then d.readers else d.readers + 1)
  }

  function Unlocked(d: Device, f: nat): Device
    requires f < |d.files|
  {
    d.(files := d.files[f := d.files[f].(locked := false)],
       writers := if d.files[f].writable then d.writers - 1 else d.writers,
       readers := if d.files[f].writable then d.readers else d.readers - 1)
  }

  /** The end of ACQUIRE. */
  function Granted(d: Device, p: nat, t: nat, f: nat): Device
    requires f < |d.files|
  {
    Locked(d, f).(tail := Skipped(d.tail + 1, d.invalid), granted := d.granted + [t],
                  writePid := if d.files[f].writable then p else d.writePid,
                  readPids := if d.files[f].writable then d.readPids else d.readPids + [p])
  }

  /** The end of osprd_close_last. */
  function Closed(d: Device, p: nat, f: nat): Device
    requires f < |d.files|
  {
    Unlocked(d, f).(writePid := if d.files[f].writable then -1 else d.writePid,
                    readPids := if d.files[f].writable then d.readPids else Unlisted(d.readPids, p))
  }

  function Interrupted(d: Device, t: nat): Device {
    d.(tail := if d.tail == t then d.tail + 1 else d.tail, invalid := d.invalid + [t])
  }

  predicate Busy(d: Device, f: nat)
    requires f < |d.files|
  {
    d.writers > 0 || (d.files[f].writable && d.readers > 0) || d.tail != d.head
  }

  predicate Enabled(d: Device, e: Event) {
    match e
    case Open(_) => true
    case Acquire(p, f) => f < |d.files| && p !in d.waiting && p > 0
    case Resume(p, _) => p in d.waiting && d.waiting[p].file < |d.files|
    case TryAcquire(f) => f < |d.files|
    case Release(f) => f < |d.files|
    case Close(_, f) => f < |d.files|
  }

  function Step(d: Device, e: Event): Device
    requires Enabled(d, e)
  {
    match e
    case Open(writable) => d.(files := d.files + [File(writable, false)])
    case Acquire(p, f) =>
      if RefusedAtOnce(d, p) then d
      else if RefusedLate(d, p, f) then d.(head := d.head + 1, refused := d.refused + [d.head])
      else if MayEnter(d, d.head, f) then Granted(d.(head := d.head + 1), p, d.head, f)
      else d.(head := d.head + 1, waiting := d.waiting[p := Wait(d.head, f)])
    case Resume(p, interrupted) =>
      var w := d.waiting[p];
      if MayEnter(d, w.ticket, w.file) then Granted(d.(waiting := d.waiting - {p}), p, w.ticket, w.file)
      else if interrupted then Interrupted(d.(waiting := d.waiting - {p}), w.ticket)
      else d
    case TryAcquire(f) => if Busy(d, f) then d else Locked(d, f)
    case Release(f) => if d.files[f].locked then Unlocked(d, f) else d
    case Close(p, f) => if d.files[f].locked then Closed(d, p, f) else d
  }

  // ---------------------------------------------------------------- the invariant

  /** How many files of one kind are locked. */
  function CountLocked(files: seq<File>, writable: bool): nat {
    if files == [] then 0
    else CountLocked(files[..|files| - 1], writable) + (if files[|files| - 1] == File(writable, true) then 1 else 0)
  }

  /** The writers are counted exactly; a file that is locked for reading several times over
      counts several times, so the readers are counted at least. A writer excludes everyone. */
  ghost predicate Counters(d: Device) {
    && d.writers == CountLocked(d.files, true) && d.writers <= 1
    && d.readers >= CountLocked(d.files, false)
    && (d.writers == 1 ==> d.readers == 0)
  }

  /** Tickets below the tail have been served or given up; those of waiting processes are at the
      tail or behind it. */
  ghost predicate Tickets(d: Device) {
    && d.tail <= d.head
    && (forall p :: p in d.waiting ==> d.tail <= d.waiting[p].ticket < d.head && d.waiting[p].ticket !in d.invalid && d.waiting[p].file < |d.files|)
    && (forall p, q :: p in d.waiting && q in d.waiting && p != q ==> d.waiting[p].ticket != d.waiting[q].ticket)
    && (forall k :: 0 <= k < |d.invalid| ==> d.invalid[k] < d.head)
    && (forall k :: 0 <= k < |d.granted| ==> d.granted[k] < d.tail)
    && (forall j, k :: 0 <= j < k < |d.granted| ==> d.granted[j] < d.granted[k])
    && (forall t: nat :: t < d.tail ==> t in d.granted || t in d.invalid)
    && (forall k :: 0 <= k < |d.granted| ==> d.granted[k] !in d.invalid)
  }

  /** Every ticket that has been handed out has been served or given up or refused, or a process waits
      with it. A refused ticket is never passed over. */
  ghost predicate Accounted(d: Device) {
    && (forall t :: t in d.refused ==> d.tail <= t < d.head && t !in d.invalid)
    && (forall p :: p in d.waiting ==> d.waiting[p].ticket !in d.refused)
    && (forall t: nat :: t < d.head ==> t in d.granted || t in d.invalid || t in d.refused || Waits(d, t))
  }

  ghost predicate Waits(d: Device, t: nat) {
    exists p :: p in d.waiting && d.waiting[p].ticket == t
  }

  ghost predicate Inv(d: Device) {
    Counters(d) && Tickets(d) && Accounted(d)
  }

  lemma {:induction false} CountAfter(files: seq<File>, f: nat, x: File, writable: bool)
    requires f < |files|
    ensures CountLocked(files[f := x], writable) ==
            CountLocked(files, writable) - (if files[f] == File(writable, true) then 1 else 0) + (if x == File(writable, true) then 1 else 0)
  {
    var n := |files| - 1;
    if f < n {
      CountAfter(files[..n], f, x, writable);
      assert files[f := x][..n] == files[..n][f := x];
    } else {
      assert files[f := x][..n] == files[..n];
    }
  }

  lemma {:induction false} CountMember(files: seq<File>, f: nat)
    requires f < |files| && files[f].locked
    ensures CountLocked(files, files[f].writable) >= 1
    decreases |files|
  {
    var n := |files| - 1;
    if f < n {
      CountMember(files[..n], f);
    }
  }

  lemma {:induction false} SkippedExact(tail: nat, invalid: seq<nat>, head: nat)
    requires tail <= head && forall k :: 0 <= k < |invalid| ==> invalid[k] < head
    ensures tail <= Skipped(tail, invalid) <= head
    ensures forall t: nat :: tail <= t < Skipped(tail, invalid) ==> t in invalid
    decreases invalid
  {
    if invalid != [] {
      var next := if invalid[0] == tail then tail + 1 else tail;
      SkippedExact(next, invalid[1..], head);
      forall t: nat | tail <= t < Skipped(tail, invalid)
        ensures t in invalid
      {
        if t >= next {
          assert t in invalid[1..];
        }
      }
    }
  }

  lemma LockedCounters(d: Device, f: nat)
    requires Counters(d) && f < |d.files| && d.writers == 0 && (d.files[f].writable ==> d.readers == 0)
    ensures Counters(Locked(d, f))
  {
    CountAfter(d.files, f, d.files[f].(locked := true), true);
    CountAfter(d.files, f, d.files[f].(locked := true), false);
    if d.files[f].writable && d.files[f].locked {
      CountMember(d.files, f);
    }
  }

  lemma UnlockedCounters(d: Device, f: nat)
    requires Counters(d) && f < |d.files| && d.files[f].locked
    ensures Counters(Unlocked(d, f))
  {
    CountMember(d.files, f);
    CountAfter(d.files, f, d.files[f].(locked := false), true);
    CountAfter(d.files, f, d.files[f].(locked := false), false);
  }

  /** The tickets that the new tail leaves behind. */
  lemma GrantedBehind(d: Device, t: nat, tail: nat, u: nat)
    requires Tickets(d) && t == d.tail && tail == Skipped(t + 1, d.invalid) && t < d.head && u < tail
    ensures u in d.granted + [t] || u in d.invalid
  {
    SkippedExact(t + 1, d.invalid, d.head);
    if u == t {
      assert (d.granted + [t])[|d.granted|] == t;
    }
  }

  lemma GrantedAhead(d: Device, t: nat, tail: nat)
    requires Tickets(d) && t == d.tail && tail == Skipped(t + 1, d.invalid) && t < d.head
    requires forall p :: p in d.waiting ==> d.waiting[p].ticket != t
    ensures t < tail <= d.head && forall p :: p in d.waiting ==> tail <= d.waiting[p].ticket
  {
    SkippedExact(t + 1, d.invalid, d.head);
    forall p | p in d.waiting
      ensures tail <= d.waiting[p].ticket
    {
      assert d.waiting[p].ticket !in d.invalid;
    }
  }

  /** Serving the ticket at the tail keeps the order of tickets. */
  lemma GrantedTickets(d: Device, p: nat, t: nat, f: nat)
    requires Tickets(d) && f < |d.files| && t == d.tail < d.head && t !in d.invalid
    requires forall p :: p in d.waiting ==> d.waiting[p].ticket != t
    ensures Tickets(Granted(d, p, t, f))
  {
    hide Skipped;
    var d' := Granted(d, p, t, f);
    GrantedAhead(d, t, d'.tail);
    forall u: nat | u < d'.tail
      ensures u in d'.granted || u in d'.invalid
    {
      GrantedBehind(d, t, d'.tail, u);
    }
  }

  lemma InterruptedTickets(d: Device, t: nat)
    requires Tickets(d) && d.tail <= t < d.head && forall p :: p in d.waiting ==> d.waiting[p].ticket != t
    ensures Tickets(Interrupted(d, t))
  {
    var d' := Interrupted(d, t);
    assert d'.invalid[|d.invalid|] == t;
    forall u: nat | u < d'.tail
      ensures u in d'.granted || u in d'.invalid
    {
      if u in d.invalid {
        var k :| 0 <= k < |d.invalid| && d.invalid[k] == u;
        assert d'.invalid[k] == u;
      }
    }
  }

  lemma MoreTickets(d: Device)
    requires Tickets(d)
    ensures Tickets(d.(head := d.head + 1))
  {
  }

  lemma WaiterLeaves(d: Device, p: nat)
    requires Tickets(d) && p in d.waiting
    ensures Tickets(d.(waiting := d.waiting - {p}))
    ensures forall q :: q in d.waiting - {p} ==> (d.waiting - {p})[q].ticket != d.waiting[p].ticket
  {
  }

  lemma NewWaiter(d: Device, p: nat, f: nat)
    requires Tickets(d) && p !in d.waiting && f < |d.files|
    ensures Tickets(d.(head := d.head + 1, waiting := d.waiting[p := Wait(d.head, f)]))
  {
  }

  // ---------------------------------------------------------------- every ticket is accounted for

  lemma GrantedAccounted(d: Device, p: nat, t: nat, f: nat)
    requires Tickets(d) && f < |d.files| && t == d.tail < d.head && t !in d.refused
    requires (forall u :: u in d.refused ==> d.tail <= u < d.head && u !in d.invalid) && forall q :: q in d.waiting ==> d.waiting[q].ticket !in d.refused
    requires forall u: nat :: u < d.head && u != t ==> u in d.granted || u in d.invalid || u in d.refused || Waits(d, u)
    ensures Accounted(Granted(d, p, t, f))
  {
    SkippedExact(t + 1, d.invalid, d.head);
    hide Skipped, Tickets;
    var d' := Granted(d, p, t, f);
    forall u | u in d'.refused
      ensures d'.tail <= u < d'.head
    {
      assert t + 1 <= u;
    }
    forall u: nat | u < d'.head
      ensures u in d'.granted || u in d'.invalid || u in d'.refused || Waits(d', u)
    {
      if Waits(d, u) {
        var q :| q in d.waiting && d.waiting[q].ticket == u;
        assert d'.waiting[q].ticket == u;
      }
    }
  }

  lemma InterruptedAccounted(d: Device, t: nat)
    requires Tickets(d) && d.tail <= t < d.head && t !in d.refused
    requires (forall u :: u in d.refused ==> d.tail <= u < d.head && u !in d.invalid) && forall q :: q in d.waiting ==> d.waiting[q].ticket !in d.refused
    requires forall u: nat :: u < d.head && u != t ==> u in d.granted || u in d.invalid || u in d.refused || Waits(d, u)
    ensures Accounted(Interrupted(d, t))
  {
    hide Tickets;
    var d' := Interrupted(d, t);
    forall u: nat | u < d'.head
      ensures u in d'.granted || u in d'.invalid || u in d'.refused || Waits(d', u)
    {
      if Waits(d, u) {
        var q :| q in d.waiting && d.waiting[q].ticket == u;
        assert d'.waiting[q].ticket == u;
      }
    }
  }

  lemma RefusedAccounted(d: Device)
    requires Tickets(d) && Accounted(d)
    ensures Accounted(d.(head := d.head + 1, refused := d.refused + [d.head]))
  {
    var d' := d.(head := d.head + 1, refused := d.refused + [d.head]);
    assert d'.refused[|d.refused|] == d.head;
    forall t: nat | t < d'.head
      ensures t in d'.granted || t in d'.invalid || t in d'.refused || Waits(d', t)
    {
      if t < d.head && Waits(d, t) {
        var q :| q in d.waiting && d.waiting[q].ticket == t;
        assert d'.waiting[q].ticket == t;
      }
    }
  }

  lemma WaiterAccounted(d: Device, p: nat, f: nat)
    requires Tickets(d) && Accounted(d) && p !in d.waiting
    ensures Accounted(d.(head := d.head + 1, waiting := d.waiting[p := Wait(d.head, f)]))
  {
    var d' := d.(head := d.head + 1, waiting := d.waiting[p := Wait(d.head, f)]);
    forall t: nat | t < d'.head
      ensures t in d'.granted || t in d'.invalid || t in d'.refused || Waits(d', t)
    {
      if t == d.head {
        assert d'.waiting[p].ticket == t;
      } else if Waits(d, t) {
        var q :| q in d.waiting && d.waiting[q].ticket == t;
        assert d'.waiting[q].ticket == t;
      }
    }
  }

  /** Without process p its ticket is the only one that is not accounted for. */
  lemma LeaverAccounted(d: Device, p: nat)
    requires Tickets(d) && Accounted(d) && p in d.waiting
    ensures var d0 := d.(waiting := d.waiting - {p});
            && (forall q :: q in d0.waiting ==> d0.waiting[q].ticket !in d0.refused) && d.waiting[p].ticket !in d0.refused
            && forall u: nat :: u < d0.head && u != d.waiting[p].ticket ==> u in d0.granted || u in d0.invalid || u in d0.refused || Waits(d0, u)
  {
    var d0 := d.(waiting := d.waiting - {p});
    forall u: nat | u < d0.head && u != d.waiting[p].ticket
      ensures u in d0.granted || u in d0.invalid || u in d0.refused || Waits(d0, u)
    {
      if Waits(d, u) {
        var q :| q in d.waiting && d.waiting[q].ticket == u;
        assert d0.waiting[q].ticket == u;
      }
    }
  }

  lemma SameAccounted(d: Device, d': Device)
    requires Accounted(d) && d'.head == d.head && d'.tail == d.tail && d'.invalid == d.invalid
    requires d'.waiting == d.waiting && d'.granted == d.granted && d'.refused == d.refused
    ensures Accounted(d')
  {
    forall t: nat | t < d'.head
      ensures t in d'.granted || t in d'.invalid || t in d'.refused || Waits(d', t)
    {
      assert Waits(d, t) ==> Waits(d', t);
    }
  }

  // ---------------------------------------------------------------- the steps

  lemma AcquireKeepsInv(d: Device, p: nat, f: nat)
    requires Inv(d) && Enabled(d, Acquire(p, f))
    ensures Inv(Step(d, Acquire(p, f)))
  {
    hide Counters, Tickets, Accounted, MayEnter;
    MoreTickets(d);
    if RefusedLate(d, p, f) {
      RefusedAccounted(d);
      SameCounters(d, Step(d, Acquire(p, f)));
      RefusedTickets(d);
    } else if !RefusedAtOnce(d, p) {
      if MayEnter(d, d.head, f) {
        EnterAtHead(d, p, f);
      } else {
        NewWaiter(d, p, f);
        WaiterAccounted(d, p, f);
        SameCounters(d, Step(d, Acquire(p, f)));
      }
    }
  }

  lemma RefusedTickets(d: Device)
    requires Tickets(d)
    ensures Tickets(d.(head := d.head + 1, refused := d.refused + [d.head]))
  {
  }

  lemma ResumeKeepsInv(d: Device, p: nat, interrupted: bool)
    requires Inv(d) && Enabled(d, Resume(p, interrupted))
    ensures Inv(Step(d, Resume(p, interrupted)))
  {
    hide Counters, Tickets;
    WaiterLeaves(d, p);
    LeaverAccounted(d, p);
    var d0 := d.(waiting := d.waiting - {p});
    WaiterBounds(d, p);
    SameCounters(d, d0);
    if MayEnter(d, d.waiting[p].ticket, d.waiting[p].file) {
      GrantedTickets(d0, p, d.waiting[p].ticket, d.waiting[p].file);
      GrantedAccounted(d0, p, d.waiting[p].ticket, d.waiting[p].file);
      LockedCounters(d0, d.waiting[p].file);
      SameCounters(Locked(d0, d.waiting[p].file), Step(d, Resume(p, interrupted)));
    } else if interrupted {
      InterruptedTickets(d0, d.waiting[p].ticket);
      InterruptedAccounted(d0, d.waiting[p].ticket);
      SameCounters(d0, Step(d, Resume(p, interrupted)));
    }
  }

  lemma SameTickets(d: Device, d': Device)
    requires Tickets(d) && |d'.files| >= |d.files| && d'.head == d.head && d'.tail == d.tail && d'.invalid == d.invalid
    requires d'.waiting == d.waiting && d'.granted == d.granted
    ensures Tickets(d')
  {
  }

  /** Every step keeps exclusion and the order of tickets. */
  lemma StepKeepsInv(d: Device, e: Event)
    requires Inv(d) && Enabled(d, e)
    ensures Inv(Step(d, e))
  {
    hide Accounted;
    match e
    case Open(writable) =>
      OpenCounters(d, writable);
      hide Tickets, Counters;
      SameTickets(d, Step(d, e));
      SameAccounted(d, Step(d, e));
    case Acquire(p, f) =>
      hide Inv, Step, Enabled;
      AcquireKeepsInv(d, p, f);
    case Resume(p, interrupted) =>
      hide Inv, Step, Enabled;
      ResumeKeepsInv(d, p, interrupted);
    case TryAcquire(f) =>
      hide CountLocked, Tickets;
      if !Busy(d, f) {
        NoLocks(d);
        LockedCounters(d, f);
      }
      SameTickets(d, Step(d, e));
      SameAccounted(d, Step(d, e));
    case Release(f) =>
      hide Counters, Tickets;
      if d.files[f].locked {
        UnlockedCounters(d, f);
      }
      SameTickets(d, Step(d, e));
      SameAccounted(d, Step(d, e));
    case Close(p, f) =>
      hide Counters, Tickets, Unlisted;
      if d.files[f].locked {
        UnlockedCounters(d, f);
        SameCounters(Unlocked(d, f), Step(d, e));
      }
      SameTickets(d, Step(d, e));
      SameAccounted(d, Step(d, e));
  }

  lemma OpenCounters(d: Device, writable: bool)
    requires Counters(d)
    ensures Counters(d.(files := d.files + [File(writable, false)]))
  {
    assert (d.files + [File(writable, false)])[..|d.files|] == d.files;
  }

  lemma NoLocks(d: Device)
    requires Counters(d)
    ensures d.writers >= 0 && d.readers >= 0
  {
  }

  lemma SameCounters(d: Device, d': Device)
    requires Counters(d) && d'.files == d.files && d'.writers == d.writers && d'.readers == d.readers
    ensures Counters(d')
  {
  }

  lemma WaiterBounds(d: Device, p: nat)
    requires Tickets(d) && p in d.waiting
    ensures d.tail <= d.waiting[p].ticket < d.head && d.waiting[p].file < |d.files| && d.waiting[p].ticket !in d.invalid
  {
  }

  /** A process that need not wait: its ticket is the one at the tail. */
  lemma EnterAtHead(d: Device, p: nat, f: nat)
    requires Inv(d) && f < |d.files| && MayEnter(d, d.head, f)
    ensures Inv(Granted(d.(head := d.head + 1), p, d.head, f))
  {
    var d1 := d.(head := d.head + 1);
    MoreTickets(d);
    NewIsNotRefused(d);
    hide Counters, CountLocked, Accounted, Tickets;
    HeadIsNew(d);
    GrantedTickets(d1, p, d.head, f);
    GrantedAccounted(d1, p, d.head, f);
    SameCounters(d, d1);
    LockedCounters(d1, f);
    SameCounters(Locked(d1, f), Granted(d1, p, d.head, f));
  }

  lemma HeadIsNew(d: Device)
    requires Tickets(d)
    ensures d.head !in d.invalid && forall p :: p in d.waiting ==> d.waiting[p].ticket != d.head
  {
  }

  lemma NewIsNotRefused(d: Device)
    requires Accounted(d)
    ensures var d1 := d.(head := d.head + 1);
            && d.head !in d1.refused && (forall t :: t in d1.refused ==> d1.tail <= t < d1.head && t !in d1.invalid)
            && (forall q :: q in d1.waiting ==> d1.waiting[q].ticket !in d1.refused)
            && forall u: nat :: u < d1.head && u != d.head ==> u in d1.granted || u in d1.invalid || u in d1.refused || Waits(d1, u)
  {
    var d1 := d.(head := d.head + 1);
    assert forall u: nat :: Waits(d, u) ==> Waits(d1, u);
  }

  // ---------------------------------------------------------------- runs

  ghost predicate IsRun(es: seq<Event>, ds: seq<Device>) {
    && |ds| == |es| + 1 && ds[0] == Setup()
    && forall k :: 0 <= k < |es| ==> Enabled(ds[k], es[k]) && ds[k + 1] == Step(ds[k], es[k])
  }

  lemma {:induction false} RunInv(es: seq<Event>, ds: seq<Device>, n: nat)
    requires IsRun(es, ds) && n < |ds|
    ensures Inv(ds[n])
  {
    if n > 0 {
      RunInv(es, ds, n - 1);
      assert ds[n - 1 + 1] == Step(ds[n - 1], es[n - 1]);
      hide Step, Inv;
      StepKeepsInv(ds[n - 1], es[n - 1]);
    }
  }

  /** Over all runs: a file locked for writing is the only locked file, and the counters are
      never negative. */
  lemma Exclusion(es: seq<Event>, ds: seq<Device>, n: nat)
    requires IsRun(es, ds) && n < |ds|
    ensures 0 <= ds[n].writers <= 1 && 0 <= ds[n].readers
    ensures ds[n].writers == CountLocked(ds[n].files, true) && (ds[n].writers == 1 ==> ds[n].readers == 0)
    ensures forall f, g :: 0 <= f < |ds[n].files| && 0 <= g < |ds[n].files| && f != g && ds[n].files[f] == File(true, true) ==> !ds[n].files[g].locked
  {
    hide IsRun;
    RunInv(es, ds, n);
    var d := ds[n];
    forall f, g | 0 <= f < |d.files| && 0 <= g < |d.files| && f != g && d.files[f] == File(true, true)
      ensures !d.files[g].locked
    {
      CountMember(d.files, f);
      if d.files[g].locked {
        CountMember(d.files, g);
        if d.files[g].writable {
          CountTwo(d.files, f, g);
        }
      }
    }
    hide CountLocked;
  }

  lemma {:induction false} CountTwo(files: seq<File>, f: nat, g: nat)
    requires f < |files| && g < |files| && f != g && files[f] == files[g] == File(true, true)
    ensures CountLocked(files, true) >= 2
    decreases |files|
  {
    var n := |files| - 1;
    if f < n && g < n {
      CountTwo(files[..n], f, g);
    } else {
      CountMember(files[..n], if f < n then f else g);
    }
  }

  /** Over all runs: ACQUIRE is granted in the order of the tickets, and the tickets that have
      been passed over are those of interrupted processes. */
  lemma TicketOrder(es: seq<Event>, ds: seq<Device>, n: nat)
    requires IsRun(es, ds) && n < |ds|
    ensures forall j, k :: 0 <= j < k < |ds[n].granted| ==> ds[n].granted[j] < ds[n].granted[k]
    ensures forall t: nat :: t < ds[n].tail ==> (t in ds[n].granted <==> t !in ds[n].invalid)
    ensures forall p :: p in ds[n].waiting ==> ds[n].tail <= ds[n].waiting[p].ticket && ds[n].waiting[p].ticket !in ds[n].invalid
  {
    hide IsRun;
    RunInv(es, ds, n);
    hide Counters;
  }

  /** Over all runs: TRYACQUIRE locks a file exactly if no writer holds the lock, nor a reader where it is for
      writing, and no ticket is outstanding; then no process waits. */
  lemma TryAcquireIsPolite(es: seq<Event>, ds: seq<Device>, n: nat, f: nat)
    requires IsRun(es, ds) && n < |es| && es[n] == TryAcquire(f)
    ensures f < |ds[n].files|
    ensures ds[n + 1] != ds[n] <==> ds[n].writers == 0 && (ds[n].files[f].writable ==> ds[n].readers == 0) && ds[n].tail == ds[n].head
    ensures ds[n + 1] != ds[n] ==> ds[n].waiting == map[] && ds[n + 1].files == ds[n].files[f := File(ds[n].files[f].writable, true)]
    ensures ds[n + 1] != ds[n] ==> ds[n + 1].writers + ds[n + 1].readers == ds[n].writers + ds[n].readers + 1
  {
    RunInv(es, ds, n);
    assert ds[n + 1] == Step(ds[n], es[n]);
    hide IsRun, CountLocked;
  }

  // ---------------------------------------------------------------- the count of readers

  /** The step locks, for reading, a file that is locked for reading already. */
  predicate Repeats(d: Device, e: Event)
    requires Enabled(d, e)
  {
    match e
    case Acquire(p, f) => !RefusedAtOnce(d, p) && MayEnter(d, d.head, f) && d.files[f] == File(false, true)
    case Resume(p, _) => MayEnter(d, d.waiting[p].ticket, d.waiting[p].file) && d.files[d.waiting[p].file] == File(false, true)
    case TryAcquire(f) => !Busy(d, f) && d.files[f] == File(false, true)
    case _ => false
  }

  /** How often that has happened in the first n steps of a run. */
  ghost function CountRepeats(es: seq<Event>, ds: seq<Device>, n: nat): nat
    requires IsRun(es, ds) && n <= |es|
  {
    if n == 0 then 0 else CountRepeats(es, ds, n - 1) + (if Repeats(ds[n - 1], es[n - 1]) then 1 else 0)
  }

  lemma LockedReaders(d: Device, f: nat)
    requires f < |d.files|
    ensures Locked(d, f).readers - CountLocked(Locked(d, f).files, false) ==
            d.readers - CountLocked(d.files, false) + (if d.files[f] == File(false, true) then 1 else 0)
  {
    CountAfter(d.files, f, d.files[f].(locked := true), false);
    hide CountLocked;
  }

  lemma StepReaders(d: Device, e: Event)
    requires Enabled(d, e)
    ensures Step(d, e).readers - CountLocked(Step(d, e).files, false) ==
            d.readers - CountLocked(d.files, false) + (if Repeats(d, e) then 1 else 0)
  {
    match e
    case Open(writable) =>
      assert (d.files + [File(writable, false)])[..|d.files|] == d.files;
    case Acquire(p, f) => LockedReaders(d.(head := d.head + 1), f);
      hide CountLocked;
    case Resume(p, interrupted) => LockedReaders(d.(waiting := d.waiting - {p}), d.waiting[p].file);
      hide CountLocked;
    case TryAcquire(f) => LockedReaders(d, f);
      hide CountLocked;
    case Release(f) => CountAfter(d.files, f, d.files[f].(locked := false), false);
      hide CountLocked;
    case Close(_, f) => CountAfter(d.files, f, d.files[f].(locked := false), false);
      hide CountLocked, Unlisted;
  }

  /** Over all runs the number of readers is that of the files locked for reading, exactly as
      long as no file has been locked for reading twice without being released in between. */
  lemma {:induction false} ReadersExact(es: seq<Event>, ds: seq<Device>, n: nat)
    requires IsRun(es, ds) && n <= |es|
    ensures ds[n].readers == CountLocked(ds[n].files, false) + CountRepeats(es, ds, n)
  {
    if n > 0 {
      ReadersExact(es, ds, n - 1);
      assert ds[n - 1 + 1] == Step(ds[n - 1], es[n - 1]);
      hide Step, CountLocked, Repeats;
      StepReaders(ds[n - 1], es[n - 1]);
    }
  }

  /** It does happen: one file, acquired twice and released once, leaves a reader behind. */
  lemma ReaderLeftBehind()
    ensures exists es: seq<Event>, ds: seq<Device> :: IsRun(es, ds) && |es| == 4 && ds[4].readers == 1 && CountLocked(ds[4].files, false) == 0
  {
    var es := [Open(false), TryAcquire(0), TryAcquire(0), Release(0)];
    var d0 := Setup();
    var d1 := d0.(files := [File(false, false)]);
    var d2 := d1.(files := [File(false, true)], readers := 1);
    var d3 := d2.(readers := 2);
    var d4 := d3.(files := [File(false, false)], readers := 1);
    var ds := [d0, d1, d2, d3, d4];
    assert d1 == Step(d0, es[0]) && d2 == Step(d1, es[1]) && d3 == Step(d2, es[2]) && d4 == Step(d3, es[3]);
    assert CountLocked(d4.files, false) == 0 by {
      assert d4.files[..0] == [];
    }
    assert IsRun(es, ds);
  }

  // ---------------------------------------------------------------- stranded tickets

  /** Tickets are outstanding, and nobody waits with the one that is to be served. */
  ghost predicate Stranded(d: Device) {
    d.tail < d.head && forall p :: p in d.waiting ==> d.waiting[p].ticket != d.tail
  }

  lemma StrandedStep(d: Device, e: Event)
    requires Enabled(d, e) && Stranded(d)
    ensures Stranded(Step(d, e)) && Step(d, e).tail == d.tail && Step(d, e).granted == d.granted
  {
  }

  /** From then on no ticket is ever served, whatever anybody does. */
  lemma {:induction false} StrandedForever(es: seq<Event>, ds: seq<Device>, n: nat, m: nat)
    requires IsRun(es, ds) && n <= m < |ds| && Stranded(ds[n])
    ensures Stranded(ds[m]) && ds[m].tail == ds[n].tail && ds[m].granted == ds[n].granted
    decreases m
  {
    if n < m {
      StrandedForever(es, ds, n, m - 1);
      assert ds[m - 1 + 1] == Step(ds[m - 1], es[m - 1]);
      StrandedStep(ds[m - 1], es[m - 1]);
    }
  }

  /** As long as no ticket is stranded there is none outstanding, or a process waits with the ticket
      to be served, and gets the lock when it wakes up once no lock is held. */
  lemma WaiterServed(d: Device) returns (p: nat)
    requires Inv(d) && !Stranded(d) && d.tail < d.head && d.writers == 0 && d.readers == 0
    ensures p in d.waiting && Enabled(d, Resume(p, false)) && Step(d, Resume(p, false)).granted == d.granted + [d.tail]
  {
    p :| p in d.waiting && d.waiting[p].ticket == d.tail;
    hide Counters;
  }

  /** Nobody will ever use this ticket. */
  predicate Dead(d: Device, t: nat) {
    t in d.invalid || t in d.refused
  }

  predicate DeadNext(d: Device) {
    d.tail < d.head && Dead(d, d.tail)
  }

  /** Over all runs a ticket is stranded if and only if the next one to be served has been given up or
      refused. */
  lemma StrandedExact(es: seq<Event>, ds: seq<Device>, n: nat)
    requires IsRun(es, ds) && n < |ds|
    ensures Stranded(ds[n]) <==> ds[n].tail < ds[n].head && Dead(ds[n], ds[n].tail)
  {
    RunInv(es, ds, n);
    hide IsRun;
    StrandedIsDead(ds[n]);
  }

  lemma StrandedIsDead(d: Device)
    requires Inv(d)
    ensures Stranded(d) <==> DeadNext(d)
  {
    hide Counters;
    assert forall k :: 0 <= k < |d.granted| ==> d.granted[k] != d.tail;
  }

  /** What strands a ticket: to be refused with the one that is next; or to be served, or to give up as
      the next one, when a dead ticket comes then. */
  predicate Strands(d: Device, e: Event)
    requires Enabled(d, e)
  {
    match e
    case Acquire(p, f) => RefusedLate(d, p, f) && d.tail == d.head
    case Resume(p, interrupted) =>
      var w := d.waiting[p];
      if MayEnter(d, w.ticket, w.file) then
        var next := Skipped(d.tail + 1, d.invalid);
        next < d.head && Dead(d, next)
      else interrupted && w.ticket == d.tail && d.tail + 1 < d.head && Dead(d, d.tail + 1)
    case _ => false
  }

  lemma AcquireStrands(d: Device, p: nat, f: nat)
    requires Inv(d) && Enabled(d, Acquire(p, f)) && !DeadNext(d)
    ensures DeadNext(Step(d, Acquire(p, f))) <==> Strands(d, Acquire(p, f))
  {
    NextAtHead(d);
    hide Inv, Skipped;
  }

  lemma ResumeStrands(d: Device, p: nat, interrupted: bool)
    requires Enabled(d, Resume(p, interrupted)) && !DeadNext(d)
    ensures DeadNext(Step(d, Resume(p, interrupted))) <==> Strands(d, Resume(p, interrupted))
  {
    hide Skipped;
    var t := d.waiting[p].ticket;
    assert forall u :: u in d.invalid + [t] <==> u in d.invalid || u == t;
  }

  /** As long as no ticket is stranded these are exactly the calls that strand one. */
  lemma StrandsExact(d: Device, e: Event)
    requires Inv(d) && Enabled(d, e) && !Stranded(d)
    ensures Stranded(Step(d, e)) <==> Strands(d, e)
  {
    StepKeepsInv(d, e);
    StrandedIsDead(d);
    StrandedIsDead(Step(d, e));
    hide Inv, Stranded, Unlisted, MayEnter;
    if e.Acquire? {
      AcquireStrands(d, e.p, e.f);
    } else if e.Resume? {
      ResumeStrands(d, e.p, e.interrupted);
    }
  }

  /** After a process that need not wait there is no ticket outstanding. */
  lemma NextAtHead(d: Device)
    requires Inv(d)
    ensures Skipped(d.head + 1, d.invalid) == d.head + 1
    ensures d.head !in d.invalid && d.head !in d.refused && d.tail <= d.head
  {
    hide Counters;
    SkippedExact(d.head + 1, d.invalid, d.head + 1);
  }

  /** Without interruptions no ticket is ever given up, so that only refused tickets are stranded. */
  lemma {:induction false} Uninterrupted(es: seq<Event>, ds: seq<Device>, n: nat)
    requires IsRun(es, ds) && n < |ds| && forall k :: 0 <= k < |es| && es[k].Resume? ==> !es[k].interrupted
    ensures ds[n].invalid == []
    ensures Stranded(ds[n]) <==> ds[n].tail < ds[n].head && ds[n].tail in ds[n].refused
  {
    if n > 0 {
      Uninterrupted(es, ds, n - 1);
      assert ds[n - 1 + 1] == Step(ds[n - 1], es[n - 1]);
    }
    StrandedExact(es, ds, n);
  }

  /** Process 1 reads, through file 0. */
  const READING := Device(1, 1, 0, 1, [], [File(false, true)], 0, [1], map[], [0], [])

  lemma ReadingRun() returns (es: seq<Event>, ds: seq<Device>)
    ensures IsRun(es, ds) && es == [Open(false), Acquire(1, 0)] && |ds| == 3 && ds[2] == READING
  {
    es := [Open(false), Acquire(1, 0)];
    var d0 := Setup();
    var d1 := d0.(files := [File(false, false)]);
    ds := [d0, d1, READING];
    assert Skipped(1, []) == 1;
    assert d1 == Step(d0, es[0]) && READING == Step(d1, es[1]);
  }

  lemma ReaderRefused(d: Device) returns (a: Device, b: Device)
    requires d == READING
    ensures a == Step(d, Open(true)) && Enabled(a, Acquire(1, 1)) && b == Step(a, Acquire(1, 1)) && Stranded(b)
  {
    a := d.(files := [File(false, true), File(true, false)]);
    b := a.(head := 2, refused := [1]);
  }

  /** A process that reads asks for the lock through another file, for writing: it is refused after it has
      taken its ticket, which is stranded. */
  lemma LateRefusalStrands()
    ensures exists es: seq<Event>, ds: seq<Device> :: IsRun(es, ds) && Stranded(ds[|es|]) &&
              es == [Open(false), Acquire(1, 0)] + [Open(true)] + [Acquire(1, 1)]
  {
    hide Step, Enabled, IsRun, Stranded;
    var es, ds := ReadingRun();
    var a, b := ReaderRefused(READING);
    assert Enabled(READING, Open(true)) by { CanOpen(READING, true); }
    MoreSteps(es, ds, Open(true));
    MoreSteps(es + [Open(true)], ds + [a], Acquire(1, 1));
    var es', ds' := es + [Open(true)] + [Acquire(1, 1)], ds + [a] + [b];
    assert IsRun(es', ds') && ds'[|es'|] == b;
  }

  lemma CanOpen(d: Device, writable: bool)
    ensures Enabled(d, Open(writable))
  {
  }

  lemma FormerReaderRefused(d: Device) returns (a: Device, b: Device, c: Device)
    requires d == READING
    ensures Enabled(d, Close(1, 0)) && a == Step(d, Close(1, 0)) && b == Step(a, Open(true)) && Enabled(b, Acquire(1, 1)) && c == Step(b, Acquire(1, 1))
    ensures Stranded(c) && b.writers == b.readers == 0 && b.waiting == map[] && b.tail == b.head
  {
    assert Unlisted([1], 1) == [1];
    a := d.(files := [File(false, false)], readers := 0);
    b := a.(files := [File(false, false), File(true, false)]);
    c := b.(head := 2, refused := [1]);
  }

  /** The first reader stays in the list of readers when it closes its file. When it asks for the lock for
      writing later, it is refused, and strands its ticket, although no lock is held and nobody waits. */
  lemma FormerReaderStrands()
    ensures exists es: seq<Event>, ds: seq<Device> :: IsRun(es, ds) && |ds| == 6 && Stranded(ds[5]) &&
              es == [Open(false), Acquire(1, 0)] + [Close(1, 0)] + [Open(true)] + [Acquire(1, 1)] &&
              ds[4].writers == ds[4].readers == 0 && ds[4].waiting == map[] && ds[4].tail == ds[4].head
  {
    hide Step, Enabled, IsRun, Stranded;
    var es, ds := ReadingRun();
    var a, b, c := FormerReaderRefused(READING);
    MoreSteps(es, ds, Close(1, 0));
    assert Enabled(a, Open(true)) by { CanOpen(a, true); }
    MoreSteps(es + [Close(1, 0)], ds + [a], Open(true));
    MoreSteps(es + [Close(1, 0)] + [Open(true)], ds + [a] + [b], Acquire(1, 1));
    var es', ds' := es + [Close(1, 0)] + [Open(true)] + [Acquire(1, 1)], ds + [a] + [b] + [c];
    assert ds'[4] == b && ds'[5] == c;
    assert |ds'| == 6 by { RunLength(es', ds'); }
    assert IsRun(es', ds') && Stranded(ds'[5]);
  }

  /** Process 1 writes, and 2, 3 and 4 wait. */
  const CROWDED := Device(4, 1, 1, 0, [], [File(true, true)], 1, [], map[2 := Wait(1, 0), 3 := Wait(2, 0), 4 := Wait(3, 0)], [0], [])

  lemma CrowdedRun() returns (es: seq<Event>, ds: seq<Device>)
    ensures IsRun(es, ds) && |es| == 5 && ds[5] == CROWDED
  {
    es := [Open(true), Acquire(1, 0), Acquire(2, 0), Acquire(3, 0), Acquire(4, 0)];
    var d0 := Setup();
    var d1 := d0.(files := [File(true, false)]);
    var d2 := d1.(files := [File(true, true)], writers := 1, head := 1, tail := 1, writePid := 1, granted := [0]);
    var d3 := d2.(head := 2, waiting := map[2 := Wait(1, 0)]);
    var d4 := d3.(head := 3, waiting := map[2 := Wait(1, 0), 3 := Wait(2, 0)]);
    assert Skipped(1, []) == 1;
    ds := [d0, d1, d2, d3, d4, CROWDED];
    assert d1 == Step(d0, es[0]) && d2 == Step(d1, es[1]) && d3 == Step(d2, es[2]);
    assert d4 == Step(d3, es[3]) && CROWDED == Step(d4, es[4]);
  }

  /** The last two give up, the later first. The writer releases the lock, and the next one is served:
      the single pass over the tickets [3, 2] passes over 2 and stops at 3. */
  lemma ShortPass(d: Device) returns (a: Device, b: Device, c: Device, e: Device)
    requires d == CROWDED
    ensures Enabled(d, Resume(4, true)) && a == Step(d, Resume(4, true))
    ensures Enabled(a, Resume(3, true)) && b == Step(a, Resume(3, true))
    ensures Enabled(b, Release(0)) && c == Step(b, Release(0))
    ensures Enabled(c, Resume(2, false)) && e == Step(c, Resume(2, false))
    ensures Stranded(e) && e.tail in e.invalid
  {
    a := d.(waiting := map[2 := Wait(1, 0), 3 := Wait(2, 0)], invalid := [3]);
    assert a == Step(d, Resume(4, true));
    b := a.(waiting := map[2 := Wait(1, 0)], invalid := [3, 2]);
    assert b == Step(a, Resume(3, true));
    c := b.(files := [File(true, false)], writers := 0);
    assert c == Step(b, Release(0));
    e := c.(files := [File(true, true)], writers := 1, writePid := 2, waiting := map[], granted := [0, 1], tail := 3);
    assert Skipped(2, [3, 2]) == Skipped(2, [2]) == Skipped(3, []) == 3;
    assert e == Step(c, Resume(2, false));
  }

  lemma MoreSteps(es: seq<Event>, ds: seq<Device>, e: Event)
    requires IsRun(es, ds) && Enabled(ds[|es|], e)
    ensures IsRun(es + [e], ds + [Step(ds[|es|], e)])
  {
    hide Step, Enabled;
  }

  /** If waiting processes can be interrupted, tickets that are given up in descending order are not all
      passed over. */
  lemma ShortPassStrands()
    ensures exists es: seq<Event>, ds: seq<Device> :: IsRun(es, ds) && |es| == 9 && Stranded(ds[9]) && ds[9].tail in ds[9].invalid
  {
    hide Step, Enabled, IsRun, Stranded;
    var es, ds := CrowdedRun();
    var a, b, c, e := ShortPass(CROWDED);
    assert |ds| == 6 by { RunLength(es, ds); }
    MoreSteps(es, ds, Resume(4, true));
    MoreSteps(es + [Resume(4, true)], ds + [a], Resume(3, true));
    MoreSteps(es + [Resume(4, true)] + [Resume(3, true)], ds + [a] + [b], Release(0));
    MoreSteps(es + [Resume(4, true)] + [Resume(3, true)] + [Release(0)], ds + [a] + [b] + [c], Resume(2, false));
    var es', ds' := es + [Resume(4, true)] + [Resume(3, true)] + [Release(0)] + [Resume(2, false)], ds + [a] + [b] + [c] + [e];
    assert ds'[9] == e;
    assert IsRun(es', ds') && |es'| == 9 && Stranded(ds'[9]) && ds'[9].tail in ds'[9].invalid;
  }

  lemma RunLength(es: seq<Event>, ds: seq<Device>)
    requires IsRun(es, ds)
    ensures |ds| == |es| + 1
  {
  }
}
