/** The buffered full-duplex relay loop of the SSH proxy helper. */
module Relay {
  import opened Wrappers

  type Byte = b: int | 0 <= b < 256

  const READ_LIMIT := 32768
  const HIGH_WATER := 65536
  const BUFFER_LIMIT := HIGH_WATER + READ_LIMIT  // 98304

  /** What `select` reports for one turn and what the calls it leads to return. `None`: descriptor not ready. */
  datatype Event = Event(
    fromStdin: Option<seq<Byte>>,  // empty: end of file
    fromSock: Option<seq<Byte>>,
    sent: Option<nat>,             // accepted by send()
    written: Option<nat>)          // accepted by write()

  lemma Split(done: seq<Byte>, buffer: seq<Byte>, n: nat)
    requires n <= |buffer|
    ensures done + buffer == (done + buffer[..n]) + buffer[n..]
  {
  }

  lemma Append(done: seq<Byte>, buffer: seq<Byte>, data: seq<Byte>)
    ensures (done + buffer) + data == done + (buffer + data)
  {
  }

  /** What the events bring from standard input, and from the socket, in order. */
  function StdinOf(events: seq<Event>): seq<Byte> {
    if events == [] then []
    else
      var e := events[|events| - 1];
      StdinOf(events[..|events| - 1]) + if e.fromStdin.Some? then e.fromStdin.value else []
  }

  function SockOf(events: seq<Event>): seq<Byte> {
    if events == [] then []
    else
      var e := events[|events| - 1];
      SockOf(events[..|events| - 1]) + if e.fromSock.Some? then e.fromSock.value else []
  }

  lemma OneMoreEvent(events: seq<Event>, k: nat)
    requires k < |events|
    ensures
      var e := events[k];
      && StdinOf(events[..k + 1]) == StdinOf(events[..k]) + (if e.fromStdin.Some? then e.fromStdin.value else [])
      && SockOf(events[..k + 1]) == SockOf(events[..k]) + if e.fromSock.Some? then e.fromSock.value else []
  {
    assert events[..k + 1][..k] == events[..k];
  }

  function Least(a: nat, b: nat): nat {
    if a <= b then a else b
  }

  class Loop {
    var toSock: seq<Byte>
    var toStdout: seq<Byte>
    var stdinClosed: bool
    // history of the four streams and of the half-closes
    ghost var readStdin: seq<Byte>
    ghost var sentSock: seq<Byte>
    ghost var readSock: seq<Byte>
    ghost var writtenStdout: seq<Byte>
    ghost var shutdowns: nat
    ghost var sentAtShutdown: seq<Byte>

    /** Nothing is lost, repeated or reordered; the buffers stay bounded; half-close only after everything is sent. */
    ghost predicate Valid()
      reads this
    {
      && readStdin == sentSock + toSock
      && readSock == writtenStdout + toStdout
      && |toSock| < BUFFER_LIMIT && |toStdout| < BUFFER_LIMIT
      && shutdowns == (if stdinClosed && toSock == [] then 1 else 0)
      && (shutdowns == 1 ==> sentAtShutdown == readStdin)
    }

    constructor ()
      ensures Valid() && toSock == [] && toStdout == [] && !stdinClosed
      ensures readStdin == [] && readSock == [] && sentSock == [] && writtenStdout == []
    {
      toSock, toStdout, stdinClosed := [], [], false;
      readStdin, sentSock, readSock, writtenStdout, shutdowns, sentAtShutdown := [], [], [], [], 0, [];
    }

    predicate WantsStdin()
      reads this
    {
      !stdinClosed && |toSock| < HIGH_WATER
    }

    predicate WantsSock()
      reads this
    {
      |toStdout| < HIGH_WATER
    }

    /** Only descriptors in the interest lists are reported, and calls return no more than they were given room for. */
    predicate Possible(e: Event)
      reads this
    {
      && (e.fromStdin.Some? ==> WantsStdin() && |e.fromStdin.value| <= READ_LIMIT)
      && (e.fromSock.Some? ==> WantsSock() && |e.fromSock.value| <= READ_LIMIT)
      && (e.sent.Some? ==> toSock != [])
      && (e.written.Some? ==> toStdout != [])
    }

    /** The loop always has something to wait for, so only the end of the socket stream ends it. */
    lemma AlwaysInterested()
      ensures WantsStdin() || WantsSock() || toSock != [] || toStdout != []
    {
    }

    /** Any read of up to 32768 bytes is open to a side with under 65536 bytes waiting, and any write to what waits. */
    lemma WhatMayCome(data: seq<Byte>, room: nat)
      requires |data| <= 32768
      ensures !stdinClosed && |toSock| < 65536 ==> Possible(Event(Some(data), None, None, None))
      ensures |toStdout| < 65536 ==> Possible(Event(None, Some(data), None, None))
      ensures toSock != [] ==> Possible(Event(None, None, Some(room), None))
      ensures toStdout != [] ==> Possible(Event(None, None, None, Some(room)))
    {
    }

    ghost method HalfClose()
      modifies `shutdowns, `sentAtShutdown
      ensures shutdowns == old(shutdowns) + 1 && sentAtShutdown == sentSock
    {
      shutdowns, sentAtShutdown := shutdowns + 1, sentSock;
    }

    method TakeStdin(data: seq<Byte>)
      requires Valid() && WantsStdin() && |data| <= READ_LIMIT
      modifies this
      ensures Valid() && readStdin == old(readStdin) + data
      ensures stdinClosed == (old(stdinClosed) || data == [])
      ensures unchanged(`sentSock, `toStdout, `readSock, `writtenStdout) && old(shutdowns) <= shutdowns
    {
      if data == [] {
        stdinClosed := true;
        if toSock == [] {
          HalfClose();
        }
      } else {
        Append(sentSock, toSock, data);
        toSock := toSock + data;
        readStdin := readStdin + data;
      }
    }

    method TakeSock(data: seq<Byte>)
      requires Valid() && WantsSock() && |data| <= READ_LIMIT
      modifies `toStdout, `readSock
      ensures Valid() && readSock == old(readSock) + data
    {
      Append(writtenStdout, toStdout, data);
      toStdout := toStdout + data;
      readSock := readSock + data;
    }

    method Send(room: nat)
      requires Valid() && toSock != []
      modifies `sentSock, `toSock, `shutdowns, `sentAtShutdown
      ensures Valid() && old(shutdowns) <= shutdowns
      ensures sentSock == old(sentSock) + old(toSock)[..Least(room, |old(toSock)|)]
    {
      var n := Least(room, |toSock|);
      Split(sentSock, toSock, n);
      sentSock := sentSock + toSock[..n];
      toSock := toSock[n..];
      if toSock == [] && stdinClosed {
        HalfClose();
      }
    }

    method Write(room: nat)
      requires Valid() && toStdout != []
      modifies `writtenStdout, `toStdout
      ensures Valid() && writtenStdout == old(writtenStdout) + old(toStdout)[..Least(room, |old(toStdout)|)]
    {
      var n := Least(room, |toStdout|);
      Split(writtenStdout, toStdout, n);
      writtenStdout := writtenStdout + toStdout[..n];
      toStdout := toStdout[n..];
    }

    /** One pass of the loop body. Counts beyond the buffer stand for a call that took all of it. */
    method Turn(e: Event) returns (ended: bool)
      requires Valid() && Possible(e)
      modifies this
      ensures Valid()
      ensures ended <==> e.fromSock == Some([])
      ensures readStdin == old(readStdin) + if e.fromStdin.Some? then e.fromStdin.value else []
      ensures readSock == old(readSock) + if e.fromSock.Some? then e.fromSock.value else []
      ensures old(sentSock) <= sentSock && old(writtenStdout) <= writtenStdout
      // each turn moves as many bytes as the calls accept, never more than there are
      ensures !ended ==>
                |sentSock| - |old(sentSock)| ==
                Least(if e.sent.Some? then e.sent.value else 0,
                      |old(toSock)| + if e.fromStdin.Some? then |e.fromStdin.value| else 0)
      ensures !ended ==>
                |writtenStdout| - |old(writtenStdout)| ==
                Least(if e.written.Some? then e.written.value else 0,
                      |old(toStdout)| + if e.fromSock.Some? then |e.fromSock.value| else 0)
      ensures old(shutdowns) <= shutdowns <= 1
      ensures stdinClosed == (old(stdinClosed) || e.fromStdin == Some([]))
    {
      if e.fromStdin.Some? {
        TakeStdin(e.fromStdin.value);
      }
      if e.fromSock.Some? {
        if e.fromSock.value == [] {
          return true;
        }
        TakeSock(e.fromSock.value);
      }
      if e.sent.Some? && toSock != [] {
        Send(e.sent.value);
      }
      if e.written.Some? && toStdout != [] {
        Write(e.written.value);
      }
      ended := false;
    }

    /** Any number of turns: the invariant holds throughout, so output is always a prefix of input, in order. */
    method Run(events: seq<Event>) returns (ended: bool, turns: nat)
      requires Valid()
      modifies this
      ensures Valid() && turns <= |events|
      ensures readStdin == old(readStdin) + StdinOf(events[..turns])
      ensures readSock == old(readSock) + SockOf(events[..turns])
      ensures sentSock <= readStdin && writtenStdout <= readSock
      ensures forall k :: 0 <= k < turns - 1 ==> events[k].fromSock != Some([])
      ensures shutdowns <= 1 && (shutdowns == 1 ==> stdinClosed && sentSock == readStdin)
      ensures !ended ==> turns == |events| || !Possible(events[turns])
      ensures ended ==> turns > 0 && events[turns - 1].fromSock == Some([])
    {
      ended, turns := false, 0;
      while turns < |events| && !ended && Possible(events[turns])
        invariant Valid() && turns <= |events|
        invariant readStdin == old(readStdin) + StdinOf(events[..turns])
        invariant readSock == old(readSock) + SockOf(events[..turns])
        invariant forall k :: 0 <= k < turns ==> events[k].fromSock == Some([]) ==> k == turns - 1 && ended
        invariant ended ==> turns > 0 && events[turns - 1].fromSock == Some([])
      {
        OneMoreEvent(events, turns);
        ended := Turn(events[turns]);
        turns := turns + 1;
      }
    }
  }
}
