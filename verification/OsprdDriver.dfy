/** The lock operations of the ramdisk driver (lab2/osprd.c), each cut at the points at which the
    process can be descheduled, against the state machine of the ticket lock. */
module OsprdDriver {
  import opened TicketLock

  const EDEADLK := 35
  const EBUSY := 16
  const EINVAL := 22
  const ERESTARTSYS := 512

  /** Whether an ioctl has come to its end, and then with what. */
  datatype Progress = Returns(r: int) | Blocks

  class Osprd {
    var ticketHead: nat
    var ticketTail: nat
    var nWriteLock: int
    var nReadLock: int
    var invalid: seq<nat>
    var files: seq<File>
    var writePid: int
    var readPids: seq<nat>
    ghost var waiting: map<nat, Wait>
    ghost var granted: seq<nat>
    ghost var refused: seq<nat>

    ghost function Dev(): Device
      reads this
    {
      Device(ticketHead, ticketTail, nWriteLock, nReadLock, invalid, files, writePid, readPids, waiting, granted, refused)
    }

    /** osprd_setup. */
    constructor ()
      ensures Dev() == Setup()
      ensures ticketHead == ticketTail == 0 && nWriteLock == nReadLock == 0 && invalid == [] && files == [] && writePid == 0 && readPids == []
    {
      ticketHead, ticketTail, nWriteLock, nReadLock, invalid, files := 0, 0, 0, 0, [], [];
      writePid, readPids, waiting, granted, refused := 0, [], map[], [], [];
    }

    method Lock(f: nat)
      requires f < |files|
      modifies this`files, this`nWriteLock, this`nReadLock
      ensures Dev() == Locked(old(Dev()), f)
      ensures files == old(files)[f := File(old(files)[f].writable, true)]
      ensures nWriteLock == old(nWriteLock) + (if files[f].writable then 1 else 0)
      ensures nReadLock == old(nReadLock) + (if files[f].writable then 0 else 1)
    {
      if files[f].writable {
        nWriteLock := nWriteLock + 1;
      } else {
        nReadLock := nReadLock + 1;
      }
      files := files[f := files[f].(locked := true)];
    }

    /** The end of ACQUIRE: the next ticket, and one pass over the invalid ones. */
    method NextTicket()
      modifies this`ticketTail
      ensures ticketTail == Skipped(old(ticketTail) + 1, invalid)
      ensures PassEnds(old(ticketTail) + 1, invalid, ticketTail)
    {
      ticketTail := ticketTail + 1;
      ghost var at: seq<nat> := [];
      NothingPassed(ticketTail, invalid);
      var i := 0;
      assert invalid[0..] == invalid;
      hide OnePass, Skipped;
      while i < |invalid|
        invariant i <= |invalid| && Skipped(ticketTail, invalid[i..]) == Skipped(old(ticketTail) + 1, invalid)
        invariant OnePass(old(ticketTail) + 1, invalid, i, at, ticketTail)
      {
        SkippedNext(ticketTail, invalid, i);
        PassGoesOn(old(ticketTail) + 1, invalid, i, at, ticketTail);
        if invalid[i] == ticketTail {
          at := at + [i];
          ticketTail := ticketTail + 1;
        }
        i := i + 1;
      }
      SkippedNext(ticketTail, invalid, i);
    }

    /** What a process does from a check of its condition on, up to its next schedule point. */
    method TryToEnter(p: nat, myTicket: nat, f: nat, interrupted: bool) returns (r: Progress)
      requires f < |files|
      modifies this
      ensures MayEnter(old(Dev()), myTicket, f) ==> r == Returns(0) && Dev() == Granted(old(Dev()), p, myTicket, f)
      ensures !MayEnter(old(Dev()), myTicket, f) ==>
                (if interrupted then r == Returns(-ERESTARTSYS) && Dev() == Interrupted(old(Dev()), myTicket) else r == Blocks && Dev() == old(Dev()))
      ensures r == Returns(0) <==> old(nWriteLock) == 0 && (old(files)[f].writable ==> old(nReadLock) == 0) && myTicket == old(ticketTail)
      ensures r == Returns(0) || r == (if interrupted then Returns(-512) else Blocks)
      ensures r == Returns(0) ==>
                && files == old(files)[f := File(old(files)[f].writable, true)]
                && nWriteLock == old(nWriteLock) + (if files[f].writable then 1 else 0)
                && nReadLock == old(nReadLock) + (if files[f].writable then 0 else 1)
                && writePid == (if files[f].writable then p else old(writePid))
                && readPids == (if files[f].writable then old(readPids) else old(readPids) + [p])
                && PassEnds(old(ticketTail) + 1, invalid, ticketTail)
      ensures r == Returns(-512) ==>
                invalid == old(invalid) + [myTicket] && ticketTail == old(ticketTail) + (if old(ticketTail) == myTicket then 1 else 0)
    {
      var condition := if files[f].writable then nReadLock == 0 && nWriteLock == 0 && myTicket == ticketTail
                       else nWriteLock == 0 && myTicket == ticketTail;
      if !condition {
        if interrupted {
          if ticketTail == myTicket {
            ticketTail := ticketTail + 1;
          }
          invalid := invalid + [myTicket];
          return Returns(-ERESTARTSYS);
        }
        return Blocks;
      }
      if files[f].writable {
        writePid := p;
      } else {
        readPids := readPids + [p];
      }
      Lock(f);
      NextTicket();
      granted := granted + [myTicket];
      return Returns(0);
    }

    /** The search in the list of readers. */
    method Reads(p: nat) returns (found: bool)
      ensures found <==> p in readPids
    {
      var i := 0;
      while i < |readPids|
        invariant i <= |readPids| && p !in readPids[..i]
      {
        if readPids[i] == p {
          return true;
        }
        i := i + 1;
      }
      return false;
    }

    /** ACQUIRE up to its first schedule point. A process that would be interrupted at once is
        first entered as waiting. */
    method AcquireStart(p: nat, f: nat) returns (r: Progress, myTicket: nat)
      requires Enabled(Dev(), Acquire(p, f))
      modifies this
      ensures Dev() == Step(old(Dev()), Acquire(p, f))
      ensures r.Blocks? <==> p in waiting
      ensures r.Blocks? ==> waiting[p] == Wait(myTicket, f)
      ensures r == Returns(-35) <==> p == old(writePid) || (old(files)[f].writable && p in old(readPids))
      ensures r == Returns(0) <==>
                p != old(writePid) && !(old(files)[f].writable && p in old(readPids)) &&
                old(nWriteLock) == 0 && (old(files)[f].writable ==> old(nReadLock) == 0) && old(ticketHead) == old(ticketTail)
      ensures r == Returns(-35) || r == Returns(0) || r == Blocks
      ensures ticketHead == old(ticketHead) + (if p == old(writePid) then 0 else 1)
      ensures myTicket == old(ticketHead)
    {
      myTicket := ticketHead;
      if p == writePid {
        return Returns(-EDEADLK), myTicket;
      }
      ticketHead := ticketHead + 1;
      if files[f].writable {
        var found := Reads(p);
        if found {
          refused := refused + [myTicket];
          return Returns(-EDEADLK), myTicket;
        }
      }
      r := TryToEnter(p, myTicket, f, false);
      if r.Blocks? {
        waiting := waiting[p := Wait(myTicket, f)];
      }
    }

    /** A process that blocks in ACQUIRE runs again. */
    method AcquireResume(p: nat, myTicket: nat, f: nat, interrupted: bool) returns (r: Progress)
      requires Enabled(Dev(), Resume(p, interrupted)) && waiting[p] == Wait(myTicket, f)
      modifies this
      ensures Dev() == Step(old(Dev()), Resume(p, interrupted))
      ensures r.Blocks? <==> p in waiting
      ensures r == Returns(0) <==> old(nWriteLock) == 0 && (old(files)[f].writable ==> old(nReadLock) == 0) && myTicket == old(ticketTail)
      ensures r == Returns(0) || r == (if interrupted then Returns(-512) else Blocks)
    {
      waiting := waiting - {p};
      r := TryToEnter(p, myTicket, f, interrupted);
      if r.Blocks? {
        waiting := old(waiting);
      }
    }

    method TryAcquireLock(f: nat) returns (r: int)
      requires f < |files|
      modifies this
      ensures Dev() == Step(old(Dev()), TryAcquire(f))
      ensures r == 0 || (r == -16 && Dev() == old(Dev()))
      ensures r == 0 <==> old(nWriteLock) <= 0 && (old(files)[f].writable ==> old(nReadLock) <= 0) && old(ticketTail) == old(ticketHead)
      ensures r == 0 ==>
                && files == old(files)[f := File(old(files)[f].writable, true)]
                && nWriteLock == old(nWriteLock) + (if files[f].writable then 1 else 0)
                && nReadLock == old(nReadLock) + (if files[f].writable then 0 else 1)
                && writePid == old(writePid) && readPids == old(readPids) && ticketTail == old(ticketTail)
    {
      if files[f].writable {
        if nWriteLock > 0 || nReadLock > 0 || ticketTail != ticketHead {
          return -EBUSY;
        }
      } else if nWriteLock > 0 || ticketHead != ticketTail {
        return -EBUSY;
      }
      Lock(f);
      return 0;
    }

    method ReleaseLock(f: nat) returns (r: int)
      requires f < |files|
      modifies this
      ensures Dev() == Step(old(Dev()), Release(f))
      ensures r == if old(files)[f].locked then 0 else -22
      ensures r == 0 ==>
                && files == old(files)[f := File(old(files)[f].writable, false)]
                && nWriteLock == old(nWriteLock) - (if files[f].writable then 1 else 0)
                && nReadLock == old(nReadLock) - (if files[f].writable then 0 else 1)
                && writePid == old(writePid) && readPids == old(readPids) && ticketTail == old(ticketTail)
      ensures r != 0 ==> Dev() == old(Dev())
    {
      if !files[f].locked {
        return -EINVAL;
      }
      if files[f].writable {
        nWriteLock := nWriteLock - 1;
      } else {
        nReadLock := nReadLock - 1;
      }
      files := files[f := files[f].(locked := false)];
      return 0;
    }

    /** The loop of osprd_close_last: the first entry of the process that is not at the front of the list,
        unless the front is one, is taken out. */
    method Unlist(p: nat)
      modifies this`readPids
      ensures readPids == Unlisted(old(readPids), p)
      ensures p !in old(readPids) || old(readPids)[0] == p ==> readPids == old(readPids)
      ensures forall k :: 0 < k < |old(readPids)| && old(readPids)[k] == p && p !in old(readPids)[..k] ==>
                readPids == old(readPids)[..k] + old(readPids)[k + 1..]
    {
      var fast := 0;
      while fast < |readPids| && readPids[fast] != p
        invariant fast <= |readPids| && readPids == old(readPids)
        invariant p !in readPids[..fast]
      {
        fast := fast + 1;
      }
      if 0 < fast < |readPids| {
        WithoutAt(readPids[1..], p, fast - 1);
        assert readPids[1..][..fast - 1] == readPids[1..fast] && readPids[1..][fast..] == readPids[fast + 1..];
        readPids := readPids[..fast] + readPids[fast + 1..];
        assert readPids == [old(readPids)[0]] + (old(readPids)[1..fast] + old(readPids)[fast + 1..]);
      } else if fast == |readPids| && readPids != [] {
        WithoutNone(readPids[1..], p);
        assert readPids == [readPids[0]] + readPids[1..];
      }
    }

    /** osprd_close_last releases what the file still holds. */
    method CloseLast(p: nat, f: nat)
      requires f < |files|
      modifies this
      ensures Dev() == Step(old(Dev()), Close(p, f))
      ensures !old(files)[f].locked ==> Dev() == old(Dev())
      ensures old(files)[f].locked ==>
                && files == old(files)[f := File(old(files)[f].writable, false)]
                && nWriteLock == old(nWriteLock) - (if files[f].writable then 1 else 0)
                && nReadLock == old(nReadLock) - (if files[f].writable then 0 else 1)
                && writePid == (if files[f].writable then -1 else old(writePid)) && ticketTail == old(ticketTail)
    {
      if files[f].locked {
        if files[f].writable {
          nWriteLock := nWriteLock - 1;
          writePid := -1;
        } else {
          nReadLock := nReadLock - 1;
          Unlist(p);
        }
        files := files[f := files[f].(locked := false)];
      }
    }
  }

  lemma {:induction false} WithoutAt(pids: seq<nat>, p: nat, at: nat)
    requires at < |pids| && pids[at] == p && p !in pids[..at]
    ensures Without(pids, p) == pids[..at] + pids[at + 1..]
  {
    if at > 0 {
      assert pids[..at][0] == pids[0] && pids[1..][..at - 1] == pids[..at][1..];
      WithoutAt(pids[1..], p, at - 1);
    }
  }

  lemma {:induction false} WithoutNone(pids: seq<nat>, p: nat)
    requires p !in pids
    ensures Without(pids, p) == pids
  {
    if pids != [] {
      WithoutNone(pids[1..], p);
    }
  }
}
