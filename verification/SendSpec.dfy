/** The sending side of a connection of Include/net/epoll.hpp, against any kernel that takes bytes, would block or is
    interrupted. */
module SendSpec {
  type Bytes = seq<bv8>

  datatype Flag = In | Out | EdgeTriggered | HangUp

  /** What the kernel answers to one send: it takes one byte and `more` others if that many are offered, or none. */
  datatype Answer = Takes(more: nat) | WouldBlock | Interrupted

  datatype State = State(
    buf: Bytes,               // appended but not sent
    monitored: set<Flag>,     // the recorded interest
    bound: bool,              // known to epoll
    registered: set<Flag>,    // the interest epoll knows
    wire: Bytes,              // taken by the kernel
    reported: seq<nat>,       // lengths handed to the send callback
    answers: seq<Answer>)     // what the kernel will answer; then it would block

  datatype Event =
    | Send(iov: seq<Bytes>, flush: bool)   // async_sendv
    | Writable                             // EPOLLOUT reported
    | Receive                              // async_recv
    | Connected                            // a connect in progress has finished

  function Start(answers: seq<Answer>): State { State([], {}, false, {}, [], [], answers) }

  function Joined(iov: seq<Bytes>): Bytes {
    if iov == [] then [] else Joined(iov[..|iov| - 1]) + iov[|iov| - 1]
  }

  // ---------------------------------------------------------------- one call

  function Min(a: nat, b: nat): nat { if a < b then a else b }

  datatype Progress = Progress(total: nat, rest: seq<Answer>)

  /** The send loop: how much of `len` bytes the kernel takes. */
  function Sending(answers: seq<Answer>, len: nat, total: nat): (p: Progress)
    requires total <= len
    ensures total <= p.total <= len
    decreases |answers|
  {
    if total == len || answers == [] then Progress(total, answers)
    else
      match answers[0]
      case Takes(more) => Sending(answers[1..], len, Min(len, total + 1 + more))
      case WouldBlock => Progress(total, answers[1..])
      case Interrupted => Sending(answers[1..], len, total)
  }

  /** `do_monitor_events`. */
  function Monitor(s: State, events: set<Flag>): State {
    var all := events + {EdgeTriggered, HangUp};
    s.(monitored := all, registered := all, bound := true)
  }

  function Settle(s: State): State {
    if s.buf != [] then (if Out in s.monitored then s else Monitor(s, s.monitored + {Out}))
    else if Out in s.monitored then Monitor(s, s.monitored - {Out})
    else s
  }

  /** `do_send`. */
  function DoSend(s: State): State {
    if s.buf == [] then s
    else
      var p := Sending(s.answers, |s.buf|, 0);
      Settle(s.(buf := s.buf[p.total..], wire := s.wire + s.buf[..p.total], answers := p.rest,
                reported := if p.total > 0 then s.reported + [p.total] else s.reported))
  }

  /** `async_sendv`. */
  function SendV(s: State, iov: seq<Bytes>, flush: bool): State {
    var s' := s.(buf := s.buf + Joined(iov));
    if !flush || Out in s'.monitored then s' else DoSend(s')
  }

  function Next(s: State, e: Event): State {
    match e
    case Send(iov, flush) => SendV(s, iov, flush)
    case Writable => DoSend(s)
    case Receive => if In in s.monitored then s else Monitor(s, s.monitored + {In})
    case Connected => SendV(s.(monitored := {}), [], true)
  }

  function Run(s: State, events: seq<Event>): State {
    if events == [] then s else Next(Run(s, events[..|events| - 1]), events[|events| - 1])
  }

  // ---------------------------------------------------------------- whole runs

  /** Everything handed to the connection, in order. */
  function Appended(events: seq<Event>): Bytes {
    if events == [] then []
    else
      var e := events[|events| - 1];
      Appended(events[..|events| - 1]) + (if e.Send? then Joined(e.iov) else [])
  }

  function Sum(ns: seq<nat>): nat {
    if ns == [] then 0 else Sum(ns[..|ns| - 1]) + ns[|ns| - 1]
  }

  /** No byte lost, doubled or out of order; the callback heard of every byte sent; recorded interest is real. */
  predicate Inv(s: State, appended: Bytes) {
    && s.wire + s.buf == appended
    && Sum(s.reported) == |s.wire|
    && (Out in s.monitored ==> s.bound && Out in s.registered)
  }

  lemma DoSendKeepsInv(s: State, appended: Bytes)
    requires Inv(s, appended)
    ensures Inv(DoSend(s), appended)
  {
    if s.buf != [] {
      var p := Sending(s.answers, |s.buf|, 0);
      hide Sending;
      assert s.wire + s.buf[..p.total] + s.buf[p.total..] == s.wire + s.buf;
      assert (s.reported + [p.total])[..|s.reported|] == s.reported;
    }
  }

  lemma StepKeepsInv(s: State, appended: Bytes, e: Event)
    requires Inv(s, appended)
    ensures Inv(Next(s, e), appended + if e.Send? then Joined(e.iov) else [])
  {
    hide DoSend, Sum;
    match e
    case Send(iov, flush) =>
      var s' := s.(buf := s.buf + Joined(iov));
      assert s.wire + s.buf + Joined(iov) == s.wire + (s.buf + Joined(iov));
      DoSendKeepsInv(s', appended + Joined(iov));
    case Writable =>
      DoSendKeepsInv(s, appended);
      assert appended + [] == appended;
    case Receive =>
      assert appended + [] == appended;
    case Connected =>
      assert Joined([]) == [] && s.buf + [] == s.buf && appended + [] == appended;
      DoSendKeepsInv(s.(monitored := {}), appended);
  }

  /** Over every run the wire followed by the buffer is what was appended. */
  lemma {:induction false} Conservation(answers: seq<Answer>, events: seq<Event>)
    ensures Inv(Run(Start(answers), events), Appended(events))
    decreases |events|
  {
    hide Next;
    if events != [] {
      var k := |events| - 1;
      Conservation(answers, events[..k]);
      StepKeepsInv(Run(Start(answers), events[..k]), Appended(events[..k]), events[k]);
    }
  }

  /** The events that try to send. */
  predicate Flushing(e: Event) { e == Writable || e == Connected || (e.Send? && e.flush) }

  /** Nothing waits unwatched. */
  predicate Watched(s: State) { s.buf == [] || (s.bound && Out in s.monitored && Out in s.registered) }

  /** A call of `do_send` with something to send sets the interest exactly if something is left. */
  lemma InterestIffLeft(s: State)
    requires s.buf != []
    ensures Out in DoSend(s).monitored <==> DoSend(s).buf != []
  {
    hide Sending;
  }

  lemma FlushWatches(s: State, appended: Bytes, e: Event)
    requires Inv(s, appended) && Flushing(e)
    ensures Watched(Next(s, e))
  {
    hide Sending;
    StepKeepsInv(s, appended, e);
  }

  /** After every flushing call, whatever came before, the buffer is empty or EPOLLOUT is set. */
  lemma AfterEveryFlush(answers: seq<Answer>, events: seq<Event>)
    requires events != [] && Flushing(events[|events| - 1])
    ensures Watched(Run(Start(answers), events))
  {
    var k := |events| - 1;
    Conservation(answers, events[..k]);
    FlushWatches(Run(Start(answers), events[..k]), Appended(events[..k]), events[k]);
  }

  /** Connections that always flush never leave bytes unwatched, also not between flushes. */
  lemma {:induction false} NeverStranded(answers: seq<Answer>, events: seq<Event>)
    requires forall e <- events :: Flushing(e) || e == Receive
    ensures Watched(Run(Start(answers), events))
    decreases |events|
  {
    if events != [] {
      var k := |events| - 1;
      NeverStranded(answers, events[..k]);
      if events[k] != Receive { AfterEveryFlush(answers, events); }
    }
  }

  lemma {:induction false} WillingKernelTakesAll(answers: seq<Answer>, len: nat, total: nat)
    requires total <= len && WouldBlock !in answers
    requires |Takings(answers)| >= len - total
    ensures Sending(answers, len, total).total == len
    decreases |answers|
  {
    if total < len {
      var first := answers[0];
      WillingKernelTakesAll(answers[1..], len, if first.Takes? then Min(len, total + 1 + first.more) else total);
    }
  }

  /** When nothing would block and the kernel keeps taking, one call sends everything, through any interruptions, and
      drops the interest. */
  lemma WillingKernelDrains(s: State)
    requires s.buf != [] && WouldBlock !in s.answers && |Takings(s.answers)| >= |s.buf|
    ensures DoSend(s).buf == [] && DoSend(s).wire == s.wire + s.buf && Out !in DoSend(s).monitored
  {
    WillingKernelTakesAll(s.answers, |s.buf|, 0);
    hide Sending;
  }

  function Takings(answers: seq<Answer>): seq<Answer> {
    if answers == [] then [] else (if answers[0].Takes? then [answers[0]] else []) + Takings(answers[1..])
  }

  // ---------------------------------------------------------------- what epoll knows

  /** A connection with any interest is known to epoll with exactly that interest, which is edge-triggered and includes
      hanging up. */
  predicate Recorded(s: State) {
    s.monitored != {} ==>
      s.bound && s.registered == s.monitored && EdgeTriggered in s.monitored && HangUp in s.monitored
  }

  lemma StepKeepsRecorded(s: State, e: Event)
    requires Recorded(s)
    ensures Recorded(Next(s, e))
  {
    hide Sending, Joined;
  }

  /** Over every run the recorded interest is what epoll has. */
  lemma {:induction false} InterestIsRecorded(answers: seq<Answer>, events: seq<Event>)
    ensures Recorded(Run(Start(answers), events))
    decreases |events|
  {
    hide Next, Recorded;
    assert Recorded(Start(answers)) by { StartIsRecorded(answers); }
    if events != [] {
      var k := |events| - 1;
      InterestIsRecorded(answers, events[..k]);
      StepKeepsRecorded(Run(Start(answers), events[..k]), events[k]);
    }
  }

  lemma StartIsRecorded(answers: seq<Answer>)
    ensures Recorded(Start(answers))
  {
  }

  /** Whatever came before, asking to receive leaves the connection watched for input, and for output as before. */
  lemma ReceiveWatchesInput(answers: seq<Answer>, events: seq<Event>)
    requires events != [] && events[|events| - 1] == Receive
    ensures var s, s' := Run(Start(answers), events[..|events| - 1]), Run(Start(answers), events);
            && In in s'.registered && In in s'.monitored && (Out in s'.monitored <==> Out in s.monitored)
            && s'.buf == s.buf && s'.wire == s.wire
  {
    InterestIsRecorded(answers, events);
    hide Sending;
  }

  /** A connection that waits for writability, or is told not to flush, only takes bytes into its buffer. */
  lemma QuietSend(s: State, iov: seq<Bytes>, flush: bool)
    requires !flush || Out in s.monitored
    ensures Next(s, Send(iov, flush)) == s.(buf := s.buf + Joined(iov))
  {
    hide DoSend, Joined;
  }

  /** Sending leaves the interest in input alone. */
  lemma SendKeepsInput(s: State, e: Event)
    requires e.Send? || e == Writable
    ensures In in Next(s, e).monitored <==> In in s.monitored
  {
    hide Sending, Joined;
  }

  /** A finished connect tries to send whatever interest was recorded before: with a kernel that keeps taking, nothing
      is left. */
  lemma ConnectedDrains(s: State)
    requires s.buf != [] && WouldBlock !in s.answers && |Takings(s.answers)| >= |s.buf|
    ensures Next(s, Connected).buf == [] && Next(s, Connected).wire == s.wire + s.buf
  {
    assert s.buf + Joined([]) == s.buf;
    WillingKernelDrains(s.(monitored := {}));
    hide DoSend, Takings;
  }
}
