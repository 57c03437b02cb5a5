/** The task buffer of an OSP2P peer and the loops that copy a file through it
    (lab4/osppeer.c: read_to_taskbuf, write_from_taskbuf, task_download, task_upload). */
module TaskBuffer {

  type byte = x: int | 0 <= x < 256

  const TASKBUFSIZ := 100000
  const UINT_MAX := 0xFFFF_FFFF
  const LIMIT := 20 * 1024 * 1024

  type uint = x: int | 0 <= x <= UINT_MAX

  /** An unsigned counter after so many bytes. */
  function Wrapped(n: nat): (c: uint)
    ensures n <= UINT_MAX ==> c == n
  {
    n % (UINT_MAX + 1)
  }

  lemma WrappedPlus(n: nat, amt: nat)
    ensures Wrapped(Wrapped(n) + amt) == Wrapped(n + amt)
  {
  }

  datatype Result = TbufError | TbufEnd | TbufOk | TbufAgain

  /** What the operating system does with one call of read or write: fail, ask to try again, or
      move some of the bytes, at least one if there are any and there is room. */
  datatype Io = Failed | Again | Moves(upTo: nat)

  /** A file or connection that is read from. */
  class Source {
    var rest: seq<byte>

    constructor (bytes: seq<byte>)
      ensures rest == bytes
    {
      rest := bytes;
    }
  }

  function Min(x: nat, y: nat): nat {
    if x < y then x else y
  }

  /** The number of bytes that a call moves. */
  function Moved(io: Io, room: nat, available: nat): (n: nat)
    requires io.Moves?
    ensures n <= room && n <= available && (n == 0 <==> room == 0 || available == 0)
  {
    if room == 0 || available == 0 then 0 else Min(Min(room, available), if io.upTo == 0 then 1 else io.upTo)
  }

  /** The stretch of the buffer that a read may fill. */
  function Room(head: nat, tail: nat): (n: nat)
    ensures tail % TASKBUFSIZ + n <= TASKBUFSIZ
  {
    if head == tail || head % TASKBUFSIZ < tail % TASKBUFSIZ then TASKBUFSIZ - tail % TASKBUFSIZ
    else head % TASKBUFSIZ - tail % TASKBUFSIZ
  }

  /** The bytes that a write may take. */
  function Ready(head: nat, tail: nat): (n: nat)
    ensures head % TASKBUFSIZ + n <= TASKBUFSIZ && (n == 0 <==> head == tail)
  {
    if head == tail then 0
    else if head % TASKBUFSIZ < tail % TASKBUFSIZ then tail % TASKBUFSIZ - head % TASKBUFSIZ
    else TASKBUFSIZ - head % TASKBUFSIZ
  }

  /** As long as the counters have not wrapped around, a read finds room exactly if the buffer is
      not full, and a write takes no more than what is buffered. */
  lemma StretchesFit(head: nat, tail: nat)
    requires head <= tail <= head + TASKBUFSIZ
    ensures tail - head + Room(head, tail) <= TASKBUFSIZ && (Room(head, tail) == 0 <==> tail - head == TASKBUFSIZ)
    ensures Ready(head, tail) <= tail - head
  {
    StretchesExact(head, tail);
  }

  /** A read may fill what is free and a write may take what is buffered, both up to the end of the 100000
      bytes of the buffer. */
  lemma StretchesExact(head: nat, tail: nat)
    requires head <= tail <= head + 100000
    ensures Room(head, tail) == Min(100000 - tail % 100000, 100000 - (tail - head))
    ensures Ready(head, tail) == Min(100000 - head % 100000, tail - head)
  {
    var q, p := head / TASKBUFSIZ, tail / TASKBUFSIZ;
    assert head == q * TASKBUFSIZ + head % TASKBUFSIZ && tail == p * TASKBUFSIZ + tail % TASKBUFSIZ;
    assert q <= p <= q + 1;
  }

  /** A read has filled what is free up to the end of the 100000 bytes of the buffer, or less if the
      call moved less. */
  ghost predicate Filled(io: Io, input: nat, input': nat, output: nat, left: nat)
    requires io.Moves?
  {
    output <= input <= output + 100000 && input' == input + Moved(io, Min(100000 - input % 100000, 100000 - (input - output)), left)
  }

  /** A write has drained what is buffered up to the end of the buffer, or less. */
  ghost predicate Drained(io: Io, input: nat, output: nat, output': nat)
    requires io.Moves?
  {
    output <= input && var ready := Min(100000 - output % 100000, input - output); output' == output + Moved(io, ready, ready)
  }

  /** The bytes that one call of read_to_taskbuf takes in, after so many in and out. */
  function Taken(io: Io, input: nat, output: nat, left: nat): (n: nat)
    ensures n <= left
  {
    if io.Moves? then Moved(io, Room(Wrapped(output), Wrapped(input)), left) else 0
  }

  /** The bytes that one call of write_from_taskbuf gives out. */
  function Given(io: Io, input: nat, output: nat): nat {
    var ready := Ready(Wrapped(output), Wrapped(input));
    if io.Moves? then Moved(io, ready, ready) else 0
  }

  /** The bytes that have been read but not yet written are in the buffer, in order. */
  ghost predicate Ring(buf: seq<byte>, input: seq<byte>, output: seq<byte>) {
    && |buf| == TASKBUFSIZ && output <= input && |input| <= |output| + TASKBUFSIZ
    && forall i :: |output| <= i < |input| ==> buf[i % TASKBUFSIZ] == input[i]
  }

  /** Bytes are put in at the tail. */
  lemma RingFilled(buf: seq<byte>, buf': seq<byte>, input: seq<byte>, output: seq<byte>, more: seq<byte>)
    requires Ring(buf, input, output) && |more| <= Room(|output|, |input|) && |buf'| == TASKBUFSIZ
    requires forall k: nat :: k < TASKBUFSIZ ==>
               buf'[k] == if |input| % TASKBUFSIZ <= k < |input| % TASKBUFSIZ + |more| then more[k - |input| % TASKBUFSIZ] else buf[k]
    ensures Ring(buf', input + more, output)
  {
    StretchesFit(|output|, |input|);
    forall i | |output| <= i < |input| + |more|
      ensures buf'[i % TASKBUFSIZ] == (input + more)[i]
    {
      ReadPlace(|output|, |input|, |more|, i);
    }
  }

  /** Bytes are taken out at the head. */
  lemma RingDrained(buf: seq<byte>, input: seq<byte>, output: seq<byte>, amt: nat)
    requires Ring(buf, input, output) && amt <= Ready(|output|, |input|)
    ensures var h := |output| % TASKBUFSIZ;
            Ring(buf, input, output + buf[h..h + amt]) && buf[h..h + amt] <= input[|output|..]
  {
    StretchesFit(|output|, |input|);
    var h := |output| % TASKBUFSIZ;
    var out := buf[h..h + amt];
    forall k: nat | k < amt
      ensures out[k] == input[|output| + k]
    {
      WritePlace(|output|, amt, k);
      assert buf[(|output| + k) % TASKBUFSIZ] == input[|output| + k];
    }
    assert out == input[|output|..|output| + amt];
  }

  class Task {
    const buf: array<byte>
    var head: uint
    var tail: uint
    var totalWritten: nat
    /** Everything that has been read into and written out of the buffer. */
    ghost var input: seq<byte>
    ghost var output: seq<byte>

    /** The counters are the numbers of bytes modulo 2^32. Before they wrap around, the buffer is a ring. */
    ghost predicate Valid()
      reads this, buf
    {
      && buf.Length == TASKBUFSIZ && totalWritten == |output|
      && head == Wrapped(|output|) && tail == Wrapped(|input|)
      && (|input| <= UINT_MAX ==> Ring(buf[..], input, output))
    }

    ghost function Buffered(): seq<byte>
      reads this
      requires |output| <= |input|
    {
      input[|output|..]
    }

    /** First in, first out. */
    lemma Fifo()
      requires Valid() && |input| <= UINT_MAX
      ensures |output| <= |input| && output + Buffered() == input && |Buffered()| <= TASKBUFSIZ
    {
    }

    lemma Counters()
      requires Valid()
      ensures totalWritten == |output| && buf.Length == TASKBUFSIZ
      ensures head == Wrapped(|output|) && tail == Wrapped(|input|)
      ensures |input| <= UINT_MAX ==> head == |output| <= |input| == tail <= head + TASKBUFSIZ && output <= input
    {
    }

    lemma AllOut()
      requires Valid() && head == tail && |input| <= UINT_MAX
      ensures output == input
    {
      assert input[..|output|] == input;
    }

    /** task_new, and what task_pop_peer does to the buffer. */
    constructor ()
      ensures Valid() && input == [] && fresh(buf)
    {
      buf := new byte[TASKBUFSIZ];
      head, tail, totalWritten, input, output := 0, 0, 0, [], [];
    }

    method Clear()
      requires buf.Length == TASKBUFSIZ
      modifies this
      ensures Valid() && input == []
    {
      head, tail, totalWritten, input, output := 0, 0, 0, [], [];
    }

    /** read into buf from a position. */
    method ReadAt(src: Source, pos: nat, n: nat)
      requires buf.Length == TASKBUFSIZ && pos + n <= TASKBUFSIZ && n <= |src.rest|
      modifies buf, src
      ensures src.rest == old(src.rest)[n..]
      ensures forall k: nat :: k < TASKBUFSIZ ==> buf[k] == if pos <= k < pos + n then old(src.rest)[k - pos] else old(buf[k])
    {
      var i := 0;
      while i < n
        invariant i <= n && src.rest == old(src.rest)
        invariant forall k: nat :: k < TASKBUFSIZ ==> buf[k] == if pos <= k < pos + i then old(src.rest)[k - pos] else old(buf[k])
      {
        buf[pos + i] := src.rest[i];
        i := i + 1;
      }
      src.rest := src.rest[n..];
    }

    /** read_to_taskbuf: what was read is appended. The end is reported only at the end of the
        source or with a full buffer. */
    method ReadToTaskbuf(src: Source, io: Io) returns (r: Result)
      requires Valid()
      modifies this, buf, src
      ensures Valid() && output == old(output)
      ensures input + src.rest == old(input) + old(src.rest) && old(input) <= input
      ensures |input| == |old(input)| + Taken(io, |old(input)|, |output|, |old(src.rest)|)
      ensures |old(input)| <= UINT_MAX && io.Moves? ==> Filled(io, |old(input)|, |input|, |output|, |old(src.rest)|)
      ensures r.TbufOk? <==> |src.rest| < |old(src.rest)|
      ensures !r.TbufOk? ==> input == old(input) && src.rest == old(src.rest)
      ensures |old(input)| <= UINT_MAX ==> (r.TbufEnd? <==> io.Moves? && (old(src.rest) == [] || |old(input)| - |output| == TASKBUFSIZ))
      ensures r.TbufError? <==> io.Failed?
      ensures r.TbufAgain? <==> io.Again?
    {
      var room := Room(head, tail);
      Counters();
      hide Wrapped, Ring;
      if |input| <= UINT_MAX {
        StretchesFit(|output|, |input|);
        StretchesExact(|output|, |input|);
      }
      if io.Again? {
        return TbufAgain;
      } else if io.Failed? {
        return TbufError;
      }
      var amt := Moved(io, room, |src.rest|);
      if amt == 0 {
        return TbufEnd;
      }
      ghost var rest, was := src.rest, buf[..];
      ReadAt(src, tail % TASKBUFSIZ, amt);
      if |input| + amt <= UINT_MAX {
        RingFilled(was, buf[..], input, output, rest[..amt]);
      }
      WrappedPlus(|input|, amt);
      tail := Wrapped(tail + amt);
      input := input + rest[..amt];
      assert rest[..amt] + src.rest == rest;
      return TbufOk;
    }

    /** write_from_taskbuf: the oldest bytes go out. */
    method WriteFromTaskbuf(io: Io) returns (r: Result, written: seq<byte>)
      requires Valid()
      modifies this
      ensures Valid() && tail == old(tail) && input == old(input)
      ensures output == old(output) + written && |written| == Given(io, |input|, |old(output)|) <= TASKBUFSIZ
      ensures |input| <= UINT_MAX ==> |old(output)| <= |input| && written <= old(Buffered())
      ensures |input| <= UINT_MAX && io.Moves? ==> Drained(io, |input|, |old(output)|, |output|)
      ensures r.TbufOk? <==> written != []
      ensures r.TbufEnd? <==> old(head) == tail
      ensures r.TbufError? <==> io.Failed? && old(head) != tail
      ensures r.TbufAgain? <==> io.Again? && old(head) != tail
    {
      hide Wrapped;
      var ready := Ready(head, tail);
      written := [];
      if head == tail {
        return TbufEnd, [];
      } else if io.Again? {
        return TbufAgain, [];
      } else if io.Failed? {
        return TbufError, [];
      }
      var amt := Moved(io, ready, ready);
      written := buf[head % TASKBUFSIZ..head % TASKBUFSIZ + amt];
      if |input| <= UINT_MAX {
        StretchesExact(|output|, |input|);
        RingDrained(buf[..], input, output, amt);
        assert written == buf[..][head % TASKBUFSIZ..head % TASKBUFSIZ + amt];
      }
      WrappedPlus(|output|, amt);
      head := Wrapped(head + amt);
      totalWritten := totalWritten + amt;
      output := output + written;
      r := TbufOk;
    }
  }

  /** Where byte i of the stream lies, while amt bytes are put in at the tail. */
  lemma ReadPlace(head: nat, tail: nat, amt: nat, i: nat)
    requires head <= tail && tail - head + amt <= TASKBUFSIZ && tail % TASKBUFSIZ + amt <= TASKBUFSIZ && head <= i < tail + amt
    ensures i >= tail ==> i % TASKBUFSIZ == tail % TASKBUFSIZ + (i - tail)
    ensures i < tail ==> !(tail % TASKBUFSIZ <= i % TASKBUFSIZ < tail % TASKBUFSIZ + amt)
  {
    var p, q := tail / TASKBUFSIZ, i / TASKBUFSIZ;
    assert tail == p * TASKBUFSIZ + tail % TASKBUFSIZ && i == q * TASKBUFSIZ + i % TASKBUFSIZ;
    if i >= tail {
      assert q == p;
    } else {
      assert p - 1 <= q <= p;
    }
  }

  lemma WritePlace(head: nat, amt: nat, k: nat)
    requires head % TASKBUFSIZ + amt <= TASKBUFSIZ && k < amt
    ensures (head + k) % TASKBUFSIZ == head % TASKBUFSIZ + k
  {
    assert head + k == head / TASKBUFSIZ * TASKBUFSIZ + (head % TASKBUFSIZ + k);
  }

  // ---------------------------------------------------------------- the copy loops

  /** How a copy loop is left. Running means that the calls of the environment that were given
      have been used up. */
  datatype Exit = EndOfFile | ReadError | WriteError | TooLarge | Running

  predicate AllMove(calls: seq<(Io, Io)>) {
    forall k :: 0 <= k < |calls| ==> calls[k].0.Moves? && calls[k].1.Moves?
  }

  /** No call fails or asks to try again, and there are enough calls for so many bytes. */
  ghost predicate Steady(calls: seq<(Io, Io)>, bytes: nat) {
    |calls| > 2 * bytes && AllMove(calls)
  }

  /** Each round moves a byte in or out, until none is left. */
  ghost predicate Progress(calls: seq<(Io, Io)>, bytes: nat, i: nat, left: nat, buffered: nat) {
    Steady(calls, bytes) ==> i + 2 * left + buffered <= 2 * bytes
  }

  ghost predicate SomeFailed(calls: seq<(Io, Io)>, first: bool) {
    exists k :: 0 <= k < |calls| && if first then calls[k].0.Failed? else calls[k].1.Failed?
  }

  lemma RoundFacts(calls: seq<(Io, Io)>, bytes: nat, i: nat)
    requires i < |calls|
    ensures calls[i].0.Failed? ==> SomeFailed(calls, true)
    ensures calls[i].1.Failed? ==> SomeFailed(calls, false)
    ensures Steady(calls, bytes) ==> calls[i].0.Moves? && calls[i].1.Moves?
  {
  }

  lemma RoundMoves(calls: seq<(Io, Io)>, bytes: nat, i: nat, left: nat, buffered: nat, left': nat, buffered': nat)
    requires Progress(calls, bytes, i, left, buffered)
    requires Steady(calls, bytes) ==> 2 * left' + buffered' < 2 * left + buffered
    ensures Progress(calls, bytes, i + 1, left', buffered')
  {
  }

  lemma NoneLeft(calls: seq<(Io, Io)>, bytes: nat, left: nat, buffered: nat)
    requires Progress(calls, bytes, |calls|, left, buffered)
    ensures !Steady(calls, bytes)
  {
  }

  /** The loop of task_download. It ends normally only when the peer has closed the connection and
      everything it sent is on the disk; the limit keeps the counters far from wrapping around. */
  method DownloadLoop(t: Task, src: Source, calls: seq<(Io, Io)>) returns (e: Exit, disk: seq<byte>)
    requires t.Valid() && t.input == []
    modifies t, t.buf, src
    ensures t.Valid() && disk == t.output
    ensures t.input + src.rest == old(src.rest)
    ensures e.EndOfFile? ==> disk == old(src.rest) && src.rest == []
    ensures e.TooLarge? ==> |disk| > 20971520
    ensures e.ReadError? ==> SomeFailed(calls, true)
    ensures e.WriteError? ==> SomeFailed(calls, false)
    ensures Steady(calls, |old(src.rest)|) ==> if |old(src.rest)| <= 20971520 then e.EndOfFile? else e.EndOfFile? || e.TooLarge?
    ensures |disk| == t.totalWritten <= 20971520 + 100000 && t.tail == |t.input| <= 20971520 + 200000
  {
    t.Counters();
    hide Steady, SomeFailed, Task.Buffered, Task.Valid, Ring, Given, Wrapped, Filled, Drained;
    disk := [];
    assert Progress(calls, |src.rest|, 0, |src.rest|, 0);
    hide Progress;
    var i := 0;
    while i < |calls|
      invariant i <= |calls| && t.Valid() && disk == t.output && t.input + src.rest == old(src.rest)
      invariant |t.output| <= LIMIT + TASKBUFSIZ && t.totalWritten == t.head == |t.output| <= t.tail == |t.input| <= t.head + TASKBUFSIZ
      invariant Progress(calls, |old(src.rest)|, i, |src.rest|, t.tail - t.head)
    {
      RoundFacts(calls, |old(src.rest)|, i);
      ghost var left, buffered := |src.rest|, t.tail - t.head;
      var ret := t.ReadToTaskbuf(src, calls[i].0);
      t.Counters();
      if ret == TbufError {
        return ReadError, disk;
      } else if ret == TbufEnd && t.head == t.tail {
        t.AllOut();
        PrefixSent(t.output, t.input, src.rest);
        return EndOfFile, disk;
      }
      if t.totalWritten > LIMIT {
        return TooLarge, disk;
      }
      var written;
      ret, written := t.WriteFromTaskbuf(calls[i].1);
      t.Counters();
      disk := disk + written;
      if ret == TbufError {
        return WriteError, disk;
      }
      RoundMoves(calls, |old(src.rest)|, i, left, buffered, |src.rest|, t.tail - t.head);
      i := i + 1;
    }
    NoneLeft(calls, |old(src.rest)|, |src.rest|, t.tail - t.head);
    return Running, disk;
  }

  // ---------------------------------------------------------------- uploading

  /** How far a run of task_upload's loop has come. */
  datatype Counts = Counts(exit: Exit, input: nat, output: nat)

  /** One round: bytes go out, then bytes come in. */
  function Round(call: (Io, Io), size: nat, c: Counts): (d: Counts)
    requires c.input <= size
    ensures c.input <= d.input <= size && c.output <= d.output
  {
    var output := c.output + Given(call.0, c.input, c.output);
    var left := size - c.input;
    var input := c.input + Taken(call.1, c.input, output, left);
    if call.0.Failed? && Wrapped(c.output) != Wrapped(c.input) then Counts(WriteError, c.input, output)
    else if call.1.Failed? then Counts(ReadError, c.input, output)
    else if call.1.Moves? && input == c.input && Wrapped(output) == Wrapped(c.input) then Counts(EndOfFile, c.input, output)
    else Counts(Running, input, output)
  }

  /** The loop of task_upload on a file of this size. */
  function Uploaded(calls: seq<(Io, Io)>, size: nat): (c: Counts)
    ensures c.input <= size && !c.exit.TooLarge?
  {
    if calls == [] then Counts(Running, 0, 0)
    else
      var c := Uploaded(calls[..|calls| - 1], size);
      if c.exit.Running? then Round(calls[|calls| - 1], size, c) else c
  }

  lemma UploadedNext(calls: seq<(Io, Io)>, size: nat, i: nat)
    requires i < |calls|
    ensures var c := Uploaded(calls[..i], size);
            Uploaded(calls[..i + 1], size) == if c.exit.Running? then Round(calls[i], size, c) else c
  {
    assert calls[..i + 1][..i] == calls[..i];
  }

  lemma {:induction false} UploadedStays(calls: seq<(Io, Io)>, size: nat, i: nat)
    requires i <= |calls| && !Uploaded(calls[..i], size).exit.Running?
    ensures Uploaded(calls, size) == Uploaded(calls[..i], size)
    decreases |calls| - i
  {
    if i == |calls| {
      assert calls[..i] == calls;
    } else {
      UploadedNext(calls, size, i);
      UploadedStays(calls, size, i + 1);
    }
  }

  lemma RoundFits(call: (Io, Io), size: nat, c: Counts)
    requires c.output <= c.input <= size <= UINT_MAX && c.input <= c.output + TASKBUFSIZ
    ensures var d := Round(call, size, c);
            && d.output <= d.input <= d.output + TASKBUFSIZ
            && (d.exit.EndOfFile? ==> d.output == d.input == size)
            && (d.exit.ReadError? ==> call.1.Failed?) && (d.exit.WriteError? ==> call.0.Failed?)
            && (d.exit.Running? && call.0.Moves? && call.1.Moves? ==>
                  2 * (size - d.input) + d.input - d.output < 2 * (size - c.input) + c.input - c.output)
  {
    StretchesFit(c.output, c.input);
    StretchesFit(c.output + Given(call.0, c.input, c.output), c.input);
  }

  /** Before the counters wrap around no more is sent than was read, the end of the file is the end of
      the loop, and each round gets on. */
  lemma {:induction false} UploadedFits(calls: seq<(Io, Io)>, size: nat)
    requires size <= UINT_MAX
    ensures var c := Uploaded(calls, size);
            && c.output <= c.input <= c.output + TASKBUFSIZ
            && (c.exit.EndOfFile? ==> c.output == c.input == size)
            && (AllMove(calls) ==> c.exit.EndOfFile? || c.exit.Running?)
            && (AllMove(calls) && c.exit.Running? ==> |calls| + 2 * (size - c.input) + c.input - c.output <= 2 * size)
  {
    hide Round;
    if calls != [] {
      var front := calls[..|calls| - 1];
      UploadedFits(front, size);
      RoundFits(calls[|calls| - 1], size, Uploaded(front, size));
      assert AllMove(calls) ==> AllMove(front);
    }
  }

  lemma {:induction false} UploadedFails(calls: seq<(Io, Io)>, size: nat)
    ensures Uploaded(calls, size).exit.ReadError? ==> SomeFailed(calls, false)
    ensures Uploaded(calls, size).exit.WriteError? ==> SomeFailed(calls, true)
  {
    if calls != [] {
      var front := calls[..|calls| - 1];
      UploadedFails(front, size);
      assert calls[|calls| - 1].0.Failed? ==> SomeFailed(calls, true);
      assert calls[|calls| - 1].1.Failed? ==> SomeFailed(calls, false);
      assert forall first :: SomeFailed(front, first) ==> SomeFailed(calls, first);
    }
  }

  /** The body of that loop. */
  method UploadRound(t: Task, src: Source, call: (Io, Io), ghost size: nat) returns (e: Exit, written: seq<byte>)
    requires t.Valid() && |t.input| + |src.rest| == size
    modifies t, t.buf, src
    ensures t.Valid() && t.output == old(t.output) + written
    ensures t.input + src.rest == old(t.input) + old(src.rest) && |t.input| + |src.rest| == size
    ensures Round(call, size, Counts(Running, |old(t.input)|, |old(t.output)|)) == Counts(e, |t.input|, |t.output|)
  {
    hide Task.Buffered, Task.Valid, Ring, Given, Taken, Moved, Wrapped, Filled, Drained;
    t.Counters();
    var ret;
    ret, written := t.WriteFromTaskbuf(call.0);
    t.Counters();
    if ret == TbufError {
      return WriteError, written;
    }
    ret := t.ReadToTaskbuf(src, call.1);
    t.Counters();
    if ret == TbufError {
      return ReadError, written;
    } else if ret == TbufEnd && t.head == t.tail {
      return EndOfFile, written;
    }
    return Running, written;
  }

  /** The loop of task_upload. Before the counters wrap around, what is sent is a part of the file, and
      all of it at the end. */
  method UploadLoop(t: Task, src: Source, calls: seq<(Io, Io)>) returns (e: Exit, sent: seq<byte>)
    requires t.Valid() && t.input == []
    modifies t, t.buf, src
    ensures t.Valid() && sent == t.output
    ensures t.input + src.rest == old(src.rest)
    ensures Uploaded(calls, |old(src.rest)|) == Counts(e, |t.input|, |sent|)
    ensures e.ReadError? ==> SomeFailed(calls, false)
    ensures e.WriteError? ==> SomeFailed(calls, true)
    ensures |old(src.rest)| <= UINT_MAX ==> sent <= old(src.rest)
    ensures |old(src.rest)| <= UINT_MAX && e.EndOfFile? ==> sent == old(src.rest) && src.rest == []
    ensures |old(src.rest)| <= UINT_MAX && Steady(calls, |old(src.rest)|) ==> e.EndOfFile?
  {
    t.Counters();
    hide SomeFailed, Task.Buffered, Task.Valid, Ring, Uploaded, Round, Wrapped;
    sent := [];
    e := Running;
    ghost var size := |src.rest|;
    NothingDone(calls, size);
    var i := 0;
    while i < |calls|
      invariant i <= |calls| && t.Valid() && sent == t.output && t.input + src.rest == old(src.rest) && |t.input| + |src.rest| == size
      invariant Uploaded(calls[..i], size) == Counts(Running, |t.input|, |t.output|) && e == Running
    {
      UploadedNext(calls, size, i);
      var written;
      e, written := UploadRound(t, src, calls[i], size);
      sent := sent + written;
      i := i + 1;
      if e != Running {
        UploadedStays(calls, size, i);
        break;
      }
    }
    assert i == |calls| ==> calls[..i] == calls;
    UploadedFails(calls, size);
    t.Counters();
    if size <= UINT_MAX {
      UploadedFits(calls, size);
      PrefixSent(t.output, t.input, src.rest);
    }
  }

  // ---------------------------------------------------------------- files that are too long

  /** Every call moves one byte. */
  function Singly(n: nat): seq<(Io, Io)> {
    seq(n, _ => (Moves(1), Moves(1)))
  }

  lemma RoundSingly(n: nat, size: nat)
    requires n <= UINT_MAX < size
    ensures Round((Moves(1), Moves(1)), size, Counts(Running, n, if n == 0 then 0 else n - 1)) == Counts(Running, n + 1, n)
  {
    assert Given(Moves(1), n, if n == 0 then 0 else n - 1) == if n == 0 then 0 else 1;
    assert Taken(Moves(1), n, n, size - n) == 1;
  }

  lemma {:induction false} SinglyUploaded(n: nat, size: nat)
    requires n <= UINT_MAX + 1 <= size
    ensures Uploaded(Singly(n), size) == Counts(Running, n, if n == 0 then 0 else n - 1)
  {
    if n > 0 {
      SinglyUploaded(n - 1, size);
      assert Singly(n)[..n - 1] == Singly(n - 1);
      RoundSingly(n - 1, size);
      hide Round;
    }
  }

  /** When the counter of the bytes read has come round to 0, a write takes bytes that were never read. */
  lemma SentTooMuch(size: nat) returns (calls: seq<(Io, Io)>)
    requires size > UINT_MAX
    ensures Uploaded(calls, size).output > Uploaded(calls, size).input
  {
    SinglyUploaded(UINT_MAX + 1, size);
    calls := Singly(UINT_MAX + 1) + [(Moves(TASKBUFSIZ), Moves(1))];
    assert calls[..|calls| - 1] == Singly(UINT_MAX + 1);
  }

  /** No run sends more than it has read if and only if the file is shorter than 2^32 bytes. */
  lemma UploadExact(size: nat)
    ensures (forall calls :: Uploaded(calls, size).output <= Uploaded(calls, size).input) <==> size <= 4294967295
  {
    hide Uploaded;
    if size <= UINT_MAX {
      forall calls
        ensures Uploaded(calls, size).output <= Uploaded(calls, size).input
      {
        UploadedFits(calls, size);
      }
    } else {
      var calls := SentTooMuch(size);
    }
  }

  lemma PrefixSent(output: seq<byte>, input: seq<byte>, rest: seq<byte>)
    requires output <= input
    ensures output <= input + rest
    ensures |output| == |input| == |input + rest| ==> output == input + rest && rest == []
  {
  }

  lemma NothingDone(calls: seq<(Io, Io)>, size: nat)
    ensures Uploaded(calls[..0], size) == Counts(Running, 0, 0)
  {
  }

  // ---------------------------------------------------------------- one peer after the other

  /** A peer with what it would send, and what the environment does meanwhile. */
  datatype Peer = Peer(reachable: bool, bytes: seq<byte>, calls: seq<(Io, Io)>)

  /** This peer sends its file, which is neither empty nor too large. */
  ghost predicate Serves(p: Peer) {
    p.reachable && 0 < |p.bytes| <= 20971520 && Steady(p.calls, |p.bytes|)
  }

  datatype Download = Saved(file: seq<byte>, from: nat) | NoPeers | Unfinished

  /** task_download: peers are tried one after the other, each with an empty buffer and a new
      file, until one has sent something and closed the connection. */
  method TaskDownload(t: Task, peers: seq<Peer>, first: nat) returns (d: Download)
    requires t.Valid() && t.input == []
    modifies t, t.buf
    ensures d.Saved? ==> first <= d.from < first + |peers| && d.file == peers[d.from - first].bytes && d.file != [] && |d.file| <= 20971520 + 100000
    ensures d.Saved? ==> forall k :: 0 <= k < d.from - first ==> !Serves(peers[k])
    ensures d.NoPeers? ==> forall k :: 0 <= k < |peers| ==> !Serves(peers[k])
    ensures d.Unfinished? ==> exists k :: 0 <= k < |peers| && !Steady(peers[k].calls, |peers[k].bytes|)
    decreases |peers|
  {
    if peers == [] {
      return NoPeers;
    }
    if peers[0].reachable {
      var src := new Source(peers[0].bytes);
      var e, disk := DownloadLoop(t, src, peers[0].calls);
      if e.Running? {
        return Unfinished;
      }
      if e.EndOfFile? && t.totalWritten > 0 {
        return Saved(disk, first);
      }
    }
    t.Clear();
    assert !Serves(peers[0]);
    d := TaskDownload(t, peers[1..], first + 1);
    assert forall k :: 0 < k < |peers| ==> peers[k] == peers[1..][k - 1];
  }
}
