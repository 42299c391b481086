/**
 The bounded line reader over a pipe (src/openworkproof/codex_host.py:144-172). Reads deliver the stream in
 chunks of any size; what the reader returns depends on the bytes alone.
 */
module LineFraming {
  import opened Collections

  type Byte = bv8

  const NEWLINE: Byte := 10
  const CHUNK_LIMIT: nat := 65536

  datatype Framing = Line(bytes: seq<Byte>) | TooLong | Closed | TimedOut | ReadFailed

  /** The position of the first newline, or the length of the bytes when there is none. */
  function Find(bytes: seq<Byte>): (at: nat)
    ensures at <= |bytes|
    ensures at < |bytes| ==> bytes[at] == NEWLINE
    ensures forall i :: 0 <= i < at ==> bytes[i] != NEWLINE
  {
    if bytes == [] || bytes[0] == NEWLINE then 0 else 1 + Find(bytes[1..])
  }

  /** What one call returns when neither the clock nor the pipe interferes. */
  function Frame(pending: seq<Byte>, max: nat): Framing {
    var at := Find(pending);
    if at > max then TooLong
    else if at < |pending| then Line(pending[..at])
    else Closed
  }

  /** What is still pending after a call. */
  function AfterFrame(pending: seq<Byte>, framing: Framing): seq<Byte>
    requires framing.Line? ==> Find(pending) < |pending|
  {
    if framing.Line? then pending[Find(pending) + 1..] else pending
  }

  lemma {:induction false} FindIn(bytes: seq<Byte>, more: seq<Byte>)
    ensures Find(bytes) < |bytes| ==> Find(bytes + more) == Find(bytes)
    ensures Find(bytes) == |bytes| ==> Find(bytes + more) == |bytes| + Find(more)
  {
    if bytes == [] {
      assert bytes + more == more;
    } else if bytes[0] != NEWLINE {
      assert (bytes + more)[1..] == bytes[1..] + more;
      FindIn(bytes[1..], more);
    }
  }

  lemma SlicesOfSum<T>(a: seq<T>, b: seq<T>, at: nat)
    requires at < |a|
    ensures (a + b)[..at] == a[..at] && (a + b)[at + 1..] == a[at + 1..] + b
  {
  }

  /** A newline in the buffer settles what a call returns; the bytes still unread do not matter. */
  lemma LineInBuffer(buffer: seq<Byte>, unread: seq<Byte>, max: nat)
    requires Find(buffer) < |buffer|
    ensures Find(buffer + unread) == Find(buffer)
    ensures Frame(buffer + unread, max) == if Find(buffer) > max then TooLong else Line(buffer[..Find(buffer)])
    ensures (buffer + unread)[Find(buffer) + 1..] == buffer[Find(buffer) + 1..] + unread
  {
    FindIn(buffer, unread);
    SlicesOfSum(buffer, unread, Find(buffer));
  }

  /** So does a buffer over the limit, or the end of the stream. */
  lemma NoLineInBuffer(buffer: seq<Byte>, unread: seq<Byte>, max: nat)
    requires Find(buffer) == |buffer|
    ensures |buffer| > max ==> Frame(buffer + unread, max) == TooLong
    ensures |buffer| <= max && unread == [] ==> Frame(buffer + unread, max) == Closed
  {
    FindIn(buffer, unread);
    assert Find(buffer + unread) >= |buffer|;
    if unread == [] {
      assert buffer + unread == buffer;
    }
  }

  /** A monotonic clock: no look at it is earlier than the one before. */
  class Clock {
    var now: nat

    constructor (start: nat)
      ensures now == start
    {
      now := start;
    }

    method Pass(least: nat)
      modifies this
      ensures now >= old(now) + least
    {
      var more: int := *;
      now := now + least + if more > 0 then more else 0;
    }
  }

  /** `failures` counts the system calls on the pipe that failed. */
  class Pipe {
    var unread: seq<Byte>
    var failures: nat

    constructor (stream: seq<Byte>)
      ensures unread == stream && failures == 0
    {
      unread := stream;
      failures := 0;
    }

    /** Waits for bytes or for the end of the stream; without an error it is not ready only when the time is over. */
    method Select(clock: Clock, remaining: nat) returns (failed: bool, ready: bool)
      modifies this`failures, clock
      ensures clock.now >= old(clock.now)
      ensures failures == old(failures) + if failed then 1 else 0
      ensures !failed && !ready ==> clock.now >= old(clock.now) + remaining
    {
      failed, ready := *, *;
      if failed {
        failures := failures + 1;
      }
      clock.Pass(if ready || failed then 0 else remaining);
    }

    /** At least one byte and at most `count`, unless the stream is at its end; or an error that takes nothing. */
    method Read(count: nat) returns (failed: bool, chunk: seq<Byte>)
      requires count > 0
      modifies this
      ensures failures == old(failures) + if failed then 1 else 0
      ensures failed ==> unread == old(unread) && chunk == []
      ensures chunk + unread == old(unread) && |chunk| <= count
      ensures !failed && old(unread) != [] ==> chunk != []
    {
      failed := *;
      chunk := [];
      if failed {
        failures := failures + 1;
      } else if |unread| > 0 {
        assert 1 <= count && 1 <= |unread|;
        var size: nat :| 1 <= size <= count && size <= |unread|;
        chunk := unread[..size];
        unread := unread[size..];
      }
    }
  }

  class LineReader {
    const pipe: Pipe
    const clock: Clock
    var buffer: seq<Byte>

    constructor (source: Pipe, time: Clock)
      ensures pipe == source && clock == time && buffer == []
    {
      pipe := source;
      clock := time;
      buffer := [];
    }

    ghost function Pending(): seq<Byte>
      reads this, pipe
    {
      buffer + pipe.unread
    }

    /** The buffer alone settles what a call returns: it holds a newline, or is over the limit. */
    predicate Settled(max: nat)
      reads this
    {
      NEWLINE in buffer || |buffer| > max
    }

    /**
     A time-out means the deadline has passed, a read error that the pipe failed, and either that the buffer did
     not settle the matter. What the buffer settles needs neither clock nor pipe; with the deadline passed from
     the start, nothing else is returned.
     */
    method ReadLine(deadline: nat, max: nat) returns (framing: Framing)
      modifies this, pipe, clock
      ensures clock.now >= old(clock.now) && pipe.failures >= old(pipe.failures)
      ensures framing in {TimedOut, ReadFailed} || framing == Frame(old(Pending()), max)
      ensures framing == TimedOut ==> clock.now >= deadline
      ensures framing == ReadFailed ==> pipe.failures > old(pipe.failures)
      ensures framing in {TimedOut, ReadFailed} ==> old(buffer) <= buffer && !Settled(max)
      ensures old(Settled(max)) ==>
        && framing == Frame(old(buffer), max) && buffer == AfterFrame(old(buffer), framing)
        && pipe.unread == old(pipe.unread) && clock.now == old(clock.now) && pipe.failures == old(pipe.failures)
      ensures old(clock.now) >= deadline && !old(Settled(max)) ==>
        framing == TimedOut && buffer == old(buffer) && pipe.unread == old(pipe.unread)
      ensures framing.Line? ==> Find(old(Pending())) < |old(Pending())|
      ensures Pending() == AfterFrame(old(Pending()), framing)
      ensures |buffer| <= |old(buffer)| || |buffer| <= max + 1
    {
      ghost var pending := Pending();
      while true
        invariant Pending() == pending
        invariant clock.now >= old(clock.now) && pipe.failures >= old(pipe.failures)
        invariant old(buffer) <= buffer
        invariant old(Settled(max)) || old(clock.now) >= deadline ==>
          && buffer == old(buffer) && pipe.unread == old(pipe.unread)
          && clock.now == old(clock.now) && pipe.failures == old(pipe.failures)
        invariant |buffer| <= |old(buffer)| || |buffer| <= max + 1
        decreases |pipe.unread|
      {
        var newline := Find(buffer);
        NoNewline(buffer);
        if newline < |buffer| {
          LineInBuffer(buffer, pipe.unread, max);
          if newline > max {
            return TooLong;
          }
          var line := buffer[..newline];
          buffer := buffer[newline + 1..];
          return Line(line);
        }
        NoLineInBuffer(buffer, pipe.unread, max);
        if |buffer| > max {
          return TooLong;
        }
        clock.Pass(0);
        if clock.now >= deadline {
          return TimedOut;
        }
        var failed, ready := pipe.Select(clock, deadline - clock.now);
        if failed {
          return ReadFailed;
        }
        if !ready {
          return TimedOut;
        }
        var room := max + 1 - |buffer|;
        var chunk;
        failed, chunk := pipe.Read(if room < CHUNK_LIMIT then room else CHUNK_LIMIT);
        if failed {
          return ReadFailed;
        }
        if chunk == [] {
          return Closed;
        }
        ghost var left := pipe.unread;
        assert buffer + (chunk + left) == (buffer + chunk) + left;
        buffer := buffer + chunk;
      }
    }

    /**
     Any number of calls, whatever was lost to the clock: the lines so far and the rest are the stream. Lines that
     were in the buffer come out whatever the clock says; and with the deadline ahead and no error on the pipe each
     call returns the next line until there is none.
     */
    method ReadLines(deadline: nat, max: nat, calls: nat) returns (lines: seq<seq<Byte>>, last: Framing)
      modifies this, pipe, clock
      ensures clock.now < deadline && pipe.failures == old(pipe.failures) ==>
        if calls <= |Lines(old(Pending()), max)| then lines == Lines(old(Pending()), max)[..calls]
        else lines == Lines(old(Pending()), max) && last in {TooLong, Closed}
      ensures |lines| >= if calls <= |Lines(old(buffer), max)| then calls else |Lines(old(buffer), max)|
      ensures lines <= Lines(old(Pending()), max)
      ensures Unlines(lines) + Pending() == old(Pending())
      ensures last in {TooLong, Closed} ==>
        lines == Lines(old(Pending()), max) && Pending() == Rest(old(Pending()), max) && last == Frame(Pending(), max)
      ensures |buffer| <= |old(buffer)| || |buffer| <= max + 1
    {
      lines, last := [], TimedOut;
      var call := 0;
      ghost var stream, buffered := Pending(), |Lines(buffer, max)|;
      while call < calls && last !in {TooLong, Closed}
        invariant ReadSoFar(stream, max, lines, Pending())
        invariant last in {TooLong, Closed} ==> last == Frame(Pending(), max)
        invariant |lines| <= call <= calls && clock.now >= old(clock.now) && pipe.failures >= old(pipe.failures)
        invariant clock.now < deadline && pipe.failures == old(pipe.failures) ==>
          |lines| == call || last in {TooLong, Closed}
        invariant |lines| < buffered ==>
          |lines| == call && last !in {TooLong, Closed} && |lines| + |Lines(buffer, max)| >= buffered
        invariant |buffer| <= |old(buffer)| || |buffer| <= max + 1
        decreases calls - call
      {
        ghost var was, held := Pending(), buffer;
        last := ReadLine(deadline, max);
        BufferedLines(held, buffer, last, max);
        if last.Line? {
          ReadOneMore(stream, max, lines, was);
          lines := lines + [last.bytes];
        }
        call := call + 1;
      }
      CallsRead(stream, max, lines, Pending(), calls);
    }
  }

  // ----- lines -----------------------------------------------------------------------------------------

  /** The lines a reader with this limit gets out of the bytes. */
  function Lines(pending: seq<Byte>, max: nat): seq<seq<Byte>>
    decreases |pending|
  {
    var framing := Frame(pending, max);
    if framing.Line? then [framing.bytes] + Lines(AfterFrame(pending, framing), max) else []
  }

  /** What is left when no further line can be had. */
  function Rest(pending: seq<Byte>, max: nat): seq<Byte>
    decreases |pending|
  {
    var framing := Frame(pending, max);
    if framing.Line? then Rest(AfterFrame(pending, framing), max) else pending
  }

  /** These lines have been read, and reading on gives the others. */
  ghost predicate ReadSoFar(stream: seq<Byte>, max: nat, lines: seq<seq<Byte>>, pending: seq<Byte>) {
    && Unlines(lines) + pending == stream
    && lines + Lines(pending, max) == Lines(stream, max)
    && Rest(pending, max) == Rest(stream, max)
  }

  lemma FrameSplits(pending: seq<Byte>, max: nat)
    requires Frame(pending, max).Line?
    ensures var framing := Frame(pending, max);
      && pending == framing.bytes + [NEWLINE] + AfterFrame(pending, framing)
      && PlainLine(framing.bytes, max)
  {
    var at := Find(pending);
    assert pending == pending[..at] + [pending[at]] + pending[at + 1..];
  }

  /** The lines read so far are the first ones; if as many as calls, or none is left, they are all to be had. */
  lemma CallsRead(stream: seq<Byte>, max: nat, lines: seq<seq<Byte>>, pending: seq<Byte>, calls: nat)
    requires ReadSoFar(stream, max, lines, pending) && |lines| <= calls
    ensures lines <= Lines(stream, max)
    ensures !Frame(pending, max).Line? ==> lines == Lines(stream, max) && pending == Rest(stream, max)
    ensures |lines| == calls || !Frame(pending, max).Line? ==>
      if calls <= |Lines(stream, max)| then lines == Lines(stream, max)[..calls] else lines == Lines(stream, max)
  {
    assert lines + Lines(pending, max) == Lines(stream, max);
    assert (lines + Lines(pending, max))[..|lines|] == lines;
    if !Frame(pending, max).Line? {
      assert lines + [] == lines;
    }
  }

  lemma LinesUnfold(pending: seq<Byte>, max: nat)
    requires Frame(pending, max).Line?
    ensures var framing := Frame(pending, max);
      && Lines(pending, max) == [framing.bytes] + Lines(AfterFrame(pending, framing), max)
      && Rest(pending, max) == Rest(AfterFrame(pending, framing), max)
  {
  }

  /** While the buffer holds lines, a call takes one of them out of it. */
  lemma BufferedLines(was: seq<Byte>, buffer: seq<Byte>, framing: Framing, max: nat)
    requires NEWLINE in was || |was| > max ==> framing == Frame(was, max)
    requires framing.Line? && framing == Frame(was, max) && NEWLINE in was ==>
      Find(was) < |was| && buffer == AfterFrame(was, framing)
    ensures Lines(was, max) != [] ==> framing.Line? && |Lines(was, max)| == 1 + |Lines(buffer, max)|
  {
    if Lines(was, max) != [] {
      NoNewline(was);
      LinesUnfold(was, max);
    }
  }

  lemma Regroup<T>(a: seq<T>, b: seq<T>, c: seq<T>)
    ensures a + (b + c) == (a + b) + c
  {
  }

  lemma ReadOneMore(stream: seq<Byte>, max: nat, lines: seq<seq<Byte>>, pending: seq<Byte>)
    requires ReadSoFar(stream, max, lines, pending) && Frame(pending, max).Line?
    ensures var framing := Frame(pending, max);
      ReadSoFar(stream, max, lines + [framing.bytes], AfterFrame(pending, framing))
  {
    var line, after := Frame(pending, max).bytes, AfterFrame(pending, Frame(pending, max));
    FrameSplits(pending, max);
    LinesUnfold(pending, max);
    UnlinesAppend(lines, line);
    Regroup(Unlines(lines), line + [NEWLINE], after);
    Regroup(Unlines(lines), line, [NEWLINE]);
    Regroup(lines, [line], Lines(after, max));
  }

  function Unlines(lines: seq<seq<Byte>>): seq<Byte> {
    if lines == [] then [] else lines[0] + [NEWLINE] + Unlines(lines[1..])
  }

  lemma {:induction false} UnlinesAppend(lines: seq<seq<Byte>>, line: seq<Byte>)
    ensures Unlines(lines + [line]) == Unlines(lines) + line + [NEWLINE]
  {
    if lines == [] {
      assert [line][1..] == [];
    } else {
      assert (lines + [line])[1..] == lines[1..] + [line];
      UnlinesAppend(lines[1..], line);
    }
  }

  ghost predicate PlainLine(line: seq<Byte>, max: nat) {
    NEWLINE !in line && |line| <= max
  }

  /** The first line of the rest is over the limit. */
  ghost predicate OverLimit(rest: seq<Byte>, max: nat) {
    |rest| > max && NEWLINE !in rest[..max + 1]
  }

  lemma NoNewline(bytes: seq<Byte>)
    ensures NEWLINE !in bytes <==> Find(bytes) == |bytes|
  {
    if Find(bytes) < |bytes| {
      assert bytes[Find(bytes)] in bytes;
    }
  }

  lemma FirstLine(line: seq<Byte>, after: seq<Byte>, max: nat)
    requires PlainLine(line, max)
    ensures Frame(line + [NEWLINE] + after, max) == Line(line)
    ensures AfterFrame(line + [NEWLINE] + after, Line(line)) == after
  {
    NoNewline(line);
    FindIn(line, [NEWLINE] + after);
    assert line + [NEWLINE] + after == line + ([NEWLINE] + after);
  }

  /** A rest without a line to give is over the limit, or the stream ended within it. */
  lemma RestFrames(rest: seq<Byte>, max: nat)
    ensures Frame(rest, max) == TooLong <==> OverLimit(rest, max)
    ensures Frame(rest, max) == Closed <==> |rest| <= max && NEWLINE !in rest
  {
    NoNewline(rest);
    if |rest| > max {
      NoNewline(rest[..max + 1]);
      FindIn(rest[..max + 1], rest[max + 1..]);
      assert rest[..max + 1] + rest[max + 1..] == rest;
    }
  }

  /** Lines within the limit come out as they went in, whatever follows them. */
  lemma {:induction false} LinesOfUnlines(lines: seq<seq<Byte>>, rest: seq<Byte>, max: nat)
    requires forall line :: line in lines ==> PlainLine(line, max)
    requires OverLimit(rest, max) || (|rest| <= max && NEWLINE !in rest)
    ensures Lines(Unlines(lines) + rest, max) == lines && Rest(Unlines(lines) + rest, max) == rest
    decreases |lines|
  {
    if lines == [] {
      assert Unlines(lines) + rest == rest;
      RestFrames(rest, max);
    } else {
      var after := Unlines(lines[1..]) + rest;
      assert lines[0] in lines;
      assert lines == [lines[0]] + lines[1..];
      UnlinesOne(lines[0], lines[1..]);
      Regroup(lines[0] + [NEWLINE], Unlines(lines[1..]), rest);
      FirstLine(lines[0], after, max);
      LinesUnfold(Unlines(lines) + rest, max);
      LinesOfUnlines(lines[1..], rest, max);
    }
  }

  /** Every stream is its lines within the limit and a rest that is over the limit or has no newline. */
  lemma {:induction false} EveryStreamSplits(pending: seq<Byte>, max: nat)
    ensures pending == Unlines(Lines(pending, max)) + Rest(pending, max)
    ensures forall line :: line in Lines(pending, max) ==> PlainLine(line, max)
    ensures !Frame(Rest(pending, max), max).Line?
    decreases |pending|
  {
    var framing := Frame(pending, max);
    if framing.Line? {
      var after := AfterFrame(pending, framing);
      FrameSplits(pending, max);
      LinesUnfold(pending, max);
      EveryStreamSplits(after, max);
      UnlinesOne(framing.bytes, Lines(after, max));
      Regroup(framing.bytes + [NEWLINE], Unlines(Lines(after, max)), Rest(after, max));
    }
  }

  lemma UnlinesOne(line: seq<Byte>, lines: seq<seq<Byte>>)
    ensures Unlines([line] + lines) == line + [NEWLINE] + Unlines(lines)
  {
    assert ([line] + lines)[1..] == lines;
  }

  /**
   The reading is the only one: lines and rest come from the stream exactly when they print it, every line is
   within the limit, and the rest is over it or has no newline.
   */
  lemma LinesIff(pending: seq<Byte>, max: nat, lines: seq<seq<Byte>>, rest: seq<Byte>)
    ensures lines == Lines(pending, max) && rest == Rest(pending, max)
       <==> && pending == Unlines(lines) + rest
            && (forall line :: line in lines ==> PlainLine(line, max))
            && (OverLimit(rest, max) || (|rest| <= max && NEWLINE !in rest))
  {
    EveryStreamSplits(pending, max);
    RestFrames(Rest(pending, max), max);
    if pending == Unlines(lines) + rest && (forall line :: line in lines ==> PlainLine(line, max))
       && (OverLimit(rest, max) || (|rest| <= max && NEWLINE !in rest))
    {
      LinesOfUnlines(lines, rest, max);
    }
  }
}
