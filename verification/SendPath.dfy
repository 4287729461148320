/** The sending methods of the connection object of Include/net/epoll.hpp. */
module SendPath {
  import opened SendSpec

  class Connection {
    var buf: Bytes
    var monitored: set<Flag>
    var bound: bool
    var registered: set<Flag>
    var wire: Bytes
    var reported: seq<nat>
    var answers: seq<Answer>

    constructor (answers: seq<Answer>)
      ensures Value() == Start(answers)
    {
      buf, monitored, bound, registered, wire, reported := [], {}, false, {}, [], [];
      this.answers := answers;
    }

    function Value(): State
      reads this
    {
      State(buf, monitored, bound, registered, wire, reported, answers)
    }

    /** `::send` with its error code: what it returns, or a negative number and whether it was an interruption. */
    method KernelSend(data: Bytes) returns (sendLen: int, interrupted: bool)
      requires data != []
      modifies `wire, `answers
      ensures old(answers) == [] ==> sendLen < 0 && !interrupted && answers == [] && wire == old(wire)
      ensures old(answers) != [] ==> answers == old(answers)[1..]
      ensures old(answers) != [] && !old(answers)[0].Takes? ==>
        sendLen < 0 && interrupted == old(answers)[0].Interrupted? && wire == old(wire)
      ensures old(answers) != [] && old(answers)[0].Takes? ==>
        sendLen == Min(|data|, 1 + old(answers)[0].more) && wire == old(wire) + data[..sendLen]
    {
      sendLen, interrupted := -1, false;
      if answers != [] {
        var answer := answers[0];
        answers := answers[1..];
        if answer.Takes? {
          sendLen := Min(|data|, 1 + answer.more);
          wire := wire + data[..sendLen];
        } else {
          interrupted := answer.Interrupted?;
        }
      }
    }

    method DoMonitorEvents(events: set<Flag>)
      modifies `monitored, `registered, `bound
      ensures Value() == Monitor(old(Value()), events)
    {
      var all := events + {EdgeTriggered, HangUp};
      registered := all;
      if !bound {
        bound := true;
      }
      monitored := all;
    }

    method DoSend()
      modifies this
      ensures Value() == SendSpec.DoSend(old(Value()))
    {
      ghost var s, goal := Value(), Sending(answers, |buf|, 0);
      var len := |buf|;
      if len == 0 {
        return;
      }
      var total := 0;
      while total < len
        invariant total <= len && Sending(answers, len, total) == goal
        invariant Value() == s.(wire := s.wire + s.buf[..total], answers := answers)
        decreases |answers|, len - total
      {
        var sendLen, interrupted := KernelSend(buf[total..]);
        if sendLen < 0 {
          if interrupted {
            continue;
          }
          assert goal == Progress(total, answers);
          break;
        }
        assert s.wire + s.buf[..total] + buf[total..][..sendLen] == s.wire + s.buf[..total + sendLen];
        total := total + sendLen;
      }
      buf := buf[total..];
      if total > 0 {
        reported := reported + [total];
      }
      if |buf| > 0 {
        if Out !in monitored {
          DoMonitorEvents(monitored + {Out});
        }
      } else {
        if Out in monitored {
          DoMonitorEvents(monitored - {Out});
        }
      }
    }

    method AsyncSendV(iov: seq<Bytes>, flush: bool)
      modifies this
      ensures Value() == SendV(old(Value()), iov, flush)
    {
      ghost var start := buf;
      for i := 0 to |iov|
        invariant Value() == old(Value()).(buf := start + Joined(iov[..i]))
      {
        buf := buf + iov[i];
        assert iov[..i + 1][..i] == iov[..i];
        assert start + Joined(iov[..i]) + iov[i] == start + (Joined(iov[..i]) + iov[i]);
      }
      assert iov[..|iov|] == iov;
      if !flush {
        return;
      }
      if Out in monitored {
        return;
      }
      DoSend();
    }

    method AsyncRecv()
      modifies this
      ensures Value() == Next(old(Value()), Receive)
    {
      if In !in monitored {
        DoMonitorEvents({In} + monitored);
      }
    }

    /** The event loop's part for a connection and for a connect that has finished. */
    method OnEvent(connected: bool)
      modifies this
      ensures Value() == Next(old(Value()), if connected then Connected else Writable)
    {
      if connected {
        monitored := {};
        AsyncSendV([], true);
      } else {
        DoSend();
      }
    }
  }
}
