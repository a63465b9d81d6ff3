/** Whole runs of one endpoint: any sequence of calls of the public methods of `_RealWebSocket`,
    with the socket accepting and yielding bytes in any amounts, or failing, at any time. */
module EndpointRuns {
  import opened Frames
  import opened Endpoints

  // The most that one recv call yields.
  const RECV_SIZE: nat := 1500

  /** `Recv`, `Push`, `Drop` and `Flush` are the atomic parts of `poll`: one successful recv, one
      successful send of `n` bytes, a failed or ended connection, and the final test. There is none of
      them on a CLOSED connection, whose socket is closed too. */
  datatype Step =
    | Send(message: Bytes)
    | SendBinary(message: Bytes)
    | SendPing
    | Close
    | DispatchCall
    | Recv(chunk: Bytes)
    | Push(n: nat)
    | Drop
    | Flush

  predicate Enabled(e: Endpoint, s: Step) {
    match s
    case Send(m) => |m| < MAX_SIZE
    case SendBinary(m) => |m| < MAX_SIZE
    case Recv(chunk) => e.readyState != CLOSED && 0 < |chunk| <= RECV_SIZE && |e.rxbuf| + |chunk| < MAX_SIZE
    case Push(n) => e.readyState != CLOSED && 0 < n <= |e.txbuf|
    case Drop => e.readyState != CLOSED
    case Flush => e.readyState != CLOSED
    case _ => true
  }

  function Apply(e: Endpoint, s: Step): Endpoint
    requires Enabled(e, s)
  {
    match s
    case Send(m) => SendData(e, TEXT_FRAME, m)
    case SendBinary(m) => SendData(e, BINARY_FRAME, m)
    case SendPing => SendData(e, PING, [])
    case Close => CloseIt(e)
    case DispatchCall => Dispatch(e)
    case Recv(chunk) => Receive(e, chunk)
    case Push(n) => Transmit(e, n)
    case Drop => Disconnect(e)
    case Flush => Finish(e)
  }

  ghost predicate IsRun(e: Endpoint, steps: seq<Step>)
    decreases |steps|
  {
    steps != [] ==> Enabled(e, steps[0]) && IsRun(Apply(e, steps[0]), steps[1..])
  }

  ghost function Run(e: Endpoint, steps: seq<Step>): Endpoint
    requires IsRun(e, steps)
    decreases |steps|
  {
    if steps == [] then e else Run(Apply(e, steps[0]), steps[1..])
  }

  /** A run can be extended at its end. */
  lemma {:induction false} RunAppend(e: Endpoint, steps: seq<Step>, s: Step)
    requires IsRun(e, steps) && Enabled(Run(e, steps), s)
    ensures IsRun(e, steps + [s]) && Run(e, steps + [s]) == Apply(Run(e, steps), s)
    decreases |steps|
  {
    hide Apply, Enabled;
    if steps == [] {
      assert steps + [s] == [s] && [s][1..] == [];
    } else {
      RunAppend(Apply(e, steps[0]), steps[1..], s);
      assert (steps + [s])[1..] == steps[1..] + [s];
    }
  }

  // ----- polling -----

  /** A recv call yields between 1 and 1500 bytes, and the buffer must be able to hold them. */
  ghost predicate RecvsFit(recvs: seq<Bytes>, held: nat)
    decreases |recvs|
  {
    recvs != [] ==>
      0 < |recvs[0]| <= RECV_SIZE && held + |recvs[0]| < MAX_SIZE && RecvsFit(recvs[1..], held + |recvs[0]|)
  }

  /** A send call takes between 1 byte and everything that is waiting. */
  ghost predicate SendsFit(sends: seq<nat>, waiting: nat)
    decreases |sends|
  {
    sends != [] ==> 0 < sends[0] <= waiting && SendsFit(sends[1..], waiting - sends[0])
  }

  ghost function RecvSteps(recvs: seq<Bytes>): seq<Step> {
    if recvs == [] then [] else RecvSteps(recvs[..|recvs| - 1]) + [Recv(recvs[|recvs| - 1])]
  }

  ghost function PushSteps(sends: seq<nat>): seq<Step> {
    if sends == [] then [] else PushSteps(sends[..|sends| - 1]) + [Push(sends[|sends| - 1])]
  }

  ghost function Sum(ns: seq<nat>): nat {
    if ns == [] then 0 else Sum(ns[..|ns| - 1]) + ns[|ns| - 1]
  }

  ghost function Received(recvs: seq<Bytes>, recvFails: bool): seq<Step> {
    RecvSteps(recvs) + if recvFails then [Drop] else []
  }

  ghost function Pushed(sends: seq<nat>, sendFails: bool, waiting: nat): seq<Step> {
    PushSteps(sends) + if sendFails && Sum(sends) < waiting then [Drop] else []
  }

  /** One call of `poll`, as the atomic steps it is made of: none on a closed connection, and no more
      after a failure. */
  ghost function PollSteps(e: Endpoint, recvs: seq<Bytes>, recvFails: bool, sends: seq<nat>, sendFails: bool): seq<Step> {
    if e.readyState == CLOSED then []
    else if recvFails then Received(recvs, true)
    else
      Received(recvs, false) + Pushed(sends, sendFails, |e.txbuf|) +
      if sendFails && Sum(sends) < |e.txbuf| then [] else [Flush]
  }

  lemma JoinLast(b: Bytes, ms: seq<Bytes>)
    requires ms != []
    ensures b + Join(ms[..|ms| - 1]) + ms[|ms| - 1] == b + Join(ms)
  {
    var front, last := Join(ms[..|ms| - 1]), ms[|ms| - 1];
    assert Join(ms) == front + last;
    hide Join;
    FirstSplit(b, front, last);
  }

  lemma {:induction false} ReceivedOutcome(e: Endpoint, recvs: seq<Bytes>)
    requires e.readyState != CLOSED && RecvsFit(recvs, |e.rxbuf|)
    ensures IsRun(e, RecvSteps(recvs))
    ensures Run(e, RecvSteps(recvs)) == e.(rxbuf := e.rxbuf + Join(recvs), received := e.received + Join(recvs))
    decreases |recvs|
  {
    if recvs == [] {
      assert e.rxbuf + Join(recvs) == e.rxbuf && e.received + Join(recvs) == e.received;
    } else {
      var front, last := recvs[..|recvs| - 1], recvs[|recvs| - 1];
      FitFirst(recvs, |e.rxbuf|);
      ReceivedOutcome(e, front);
      JoinLast(e.rxbuf, recvs);
      JoinLast(e.received, recvs);
      hide IsRun, Run, RecvsFit, Join;
      RunAppend(e, RecvSteps(front), Recv(last));
    }
  }

  lemma {:induction false} LastFits(sends: seq<nat>, waiting: nat)
    requires SendsFit(sends, waiting) && sends != []
    ensures SendsFit(sends[..|sends| - 1], waiting)
    ensures Sum(sends[..|sends| - 1]) < Sum(sends) <= waiting
    decreases |sends|
  {
    SumWithin(sends, waiting);
    if |sends| > 1 {
      LastFits(sends[1..], waiting - sends[0]);
      assert sends[1..][..|sends| - 2] == sends[..|sends| - 1][1..];
    }
  }

  lemma {:induction false} PushedOutcome(e: Endpoint, before: seq<Step>, sends: seq<nat>)
    requires IsRun(e, before) && Run(e, before).readyState != CLOSED && SendsFit(sends, |Run(e, before).txbuf|)
    ensures Sum(sends) <= |Run(e, before).txbuf|
    ensures var r := Run(e, before);
            && IsRun(e, before + PushSteps(sends))
            && Run(e, before + PushSteps(sends)) ==
               r.(txbuf := r.txbuf[Sum(sends)..], sent := r.sent + r.txbuf[..Sum(sends)])
    decreases |sends|
  {
    hide IsRun, Run;
    var r := Run(e, before);
    if sends == [] {
      assert before + PushSteps(sends) == before;
      assert r.txbuf[0..] == r.txbuf && r.sent + r.txbuf[..0] == r.sent;
    } else {
      var front, last := sends[..|sends| - 1], sends[|sends| - 1];
      LastFits(sends, |r.txbuf|);
      PushedOutcome(e, before, front);
      RunAppend(e, before + PushSteps(front), Push(last));
      assert before + PushSteps(front) + [Push(last)] == before + PushSteps(sends);
      var n := Sum(front);
      assert r.txbuf[n..][last..] == r.txbuf[n + last..];
      assert r.sent + r.txbuf[..n] + r.txbuf[n..][..last] == r.sent + r.txbuf[..n + last];
    }
  }

  /** What one poll comes to. A closed connection is left as it is. Otherwise what was received is behind what was
      there, and what was sent is gone from the front; a failed recv or send closes; else the connection closes
      if it was CLOSING and nothing is left to send. Nothing else changes. */
  lemma PollOutcome(e: Endpoint, recvs: seq<Bytes>, recvFails: bool, sends: seq<nat>, sendFails: bool)
    requires RecvsFit(recvs, |e.rxbuf|) && SendsFit(sends, |e.txbuf|) && (recvFails ==> sends == [])
    ensures Sum(sends) <= |e.txbuf| && IsRun(e, PollSteps(e, recvs, recvFails, sends, sendFails))
    ensures var e', n := Run(e, PollSteps(e, recvs, recvFails, sends, sendFails)), Sum(sends);
            var state := if recvFails || (sendFails && n < |e.txbuf|) then CLOSED
                         else if e.readyState == CLOSING && n == |e.txbuf| then CLOSED else e.readyState;
            e' == if e.readyState == CLOSED then e
                  else e.(rxbuf := e.rxbuf + Join(recvs), received := e.received + Join(recvs),
                          txbuf := e.txbuf[n..], sent := e.sent + e.txbuf[..n], readyState := state)
  {
    SumWithin(sends, |e.txbuf|);
    if e.readyState == CLOSED {
      assert PollSteps(e, recvs, recvFails, sends, sendFails) == [];
    } else {
      ReceivedOutcome(e, recvs);
      hide IsRun, Run, Join, PushSteps, RecvSteps, SendsFit, RecvsFit;
      if recvFails {
        RunAppend(e, RecvSteps(recvs), Drop);
        assert e.txbuf[0..] == e.txbuf && e.sent + e.txbuf[..0] == e.sent;
      } else {
        PollSends(e, recvs, sends, sendFails);
      }
    }
  }

  lemma PollSends(e: Endpoint, recvs: seq<Bytes>, sends: seq<nat>, sendFails: bool)
    requires e.readyState != CLOSED && SendsFit(sends, |e.txbuf|) && IsRun(e, RecvSteps(recvs))
    requires Run(e, RecvSteps(recvs)) == e.(rxbuf := e.rxbuf + Join(recvs), received := e.received + Join(recvs))
    ensures var steps, n := PollSteps(e, recvs, false, sends, sendFails), Sum(sends);
            && n <= |e.txbuf| && IsRun(e, steps)
            && Run(e, steps) ==
               e.(rxbuf := e.rxbuf + Join(recvs), received := e.received + Join(recvs),
                  txbuf := e.txbuf[n..], sent := e.sent + e.txbuf[..n],
                  readyState := if sendFails && n < |e.txbuf| then CLOSED
                                else if e.readyState == CLOSING && n == |e.txbuf| then CLOSED else e.readyState)
  {
    hide IsRun, Run, Join, PushSteps, RecvSteps, SendsFit;
    var received, n := RecvSteps(recvs), Sum(sends);
    PushedOutcome(e, received, sends);
    hide Sum;
    var both := received + PushSteps(sends);
    PollStepsAre(e, recvs, sends, sendFails);
    if sendFails && n < |e.txbuf| {
      RunAppend(e, both, Drop);
    } else {
      RunAppend(e, both, Flush);
      assert e.txbuf[n..] == [] <==> n == |e.txbuf|;
    }
  }

  lemma PollStepsAre(e: Endpoint, recvs: seq<Bytes>, sends: seq<nat>, sendFails: bool)
    requires e.readyState != CLOSED
    ensures PollSteps(e, recvs, false, sends, sendFails) ==
            RecvSteps(recvs) + PushSteps(sends) + [if sendFails && Sum(sends) < |e.txbuf| then Drop else Flush]
  {
    hide RecvSteps, PushSteps, Sum;
  }

  lemma {:induction false} SumWithin(sends: seq<nat>, waiting: nat)
    requires SendsFit(sends, waiting)
    ensures Sum(sends) <= waiting
    decreases |sends|
  {
    if sends != [] {
      SumWithin(sends[1..], waiting - sends[0]);
      SumFirst(sends);
    }
  }

  lemma {:induction false} SumFirst(ns: seq<nat>)
    requires ns != []
    ensures Sum(ns) == ns[0] + Sum(ns[1..])
  {
    if |ns| > 1 {
      SumFirst(ns[..|ns| - 1]);
      assert ns[..|ns| - 1][1..] == ns[1..][..|ns| - 2];
    }
  }

  lemma {:induction false} FitFirst(recvs: seq<Bytes>, held: nat)
    requires RecvsFit(recvs, held) && recvs != []
    ensures RecvsFit(recvs[..|recvs| - 1], held)
    ensures var before := held + |Join(recvs[..|recvs| - 1])|;
            0 < |recvs[|recvs| - 1]| <= RECV_SIZE && before + |recvs[|recvs| - 1]| < MAX_SIZE
    decreases |recvs|
  {
    if |recvs| > 1 {
      FitFirst(recvs[1..], held + |recvs[0]|);
      assert recvs[1..][..|recvs| - 2] == recvs[..|recvs| - 1][1..];
      JoinFirst(recvs[..|recvs| - 1]);
    }
  }

  lemma {:induction false} JoinFirst(ms: seq<Bytes>)
    requires ms != []
    ensures Join(ms) == ms[0] + Join(ms[1..])
  {
    if |ms| > 1 {
      JoinFirst(ms[..|ms| - 1]);
      assert ms[..|ms| - 1][1..] == ms[1..][..|ms| - 2];
    } else {
      assert Join(ms[..0]) == [] && Join(ms[1..]) == [];
    }
  }

  // ----- messages -----

  /** The messages a step submits, if the connection still accepts them. */
  ghost function Submits(e: Endpoint, s: Step): seq<Bytes> {
    if (s.Send? || s.SendBinary?) && !Left(e.readyState) then [s.message] else []
  }

  ghost function Submitted(e: Endpoint, steps: seq<Step>): seq<Bytes>
    requires IsRun(e, steps)
    decreases |steps|
  {
    if steps == [] then [] else Submits(e, steps[0]) + Submitted(Apply(e, steps[0]), steps[1..])
  }

  // ----- the invariant -----

  /** Bytes sent and bytes waiting are together the encoding of the accepted frames. */
  ghost predicate Outgoing(accepted: seq<Frame>, stream: Bytes) {
    AreFrames(accepted) && stream == EncodeAll(accepted)
  }

  /** A CLOSE frame is the last one, and is there whenever the state is CLOSING (section 5.5.1). */
  ghost predicate CloseIsLast(accepted: seq<Frame>, state: ReadyState) {
    && state != CONNECTING
    && (forall i :: 0 <= i < |accepted| && accepted[i].opcode == CLOSE ==>
          i == |accepted| - 1 && state != OPEN)
    && (state == CLOSING ==> accepted != [] && accepted[|accepted| - 1] == CLOSE_FRAME)
  }

  /** The endpoint never fragments: its data frames are whole messages. */
  ghost predicate Whole(accepted: seq<Frame>) {
    Reassemble(accepted).pending == []
  }

  ghost function Messages(fs: seq<Frame>): seq<Bytes> {
    Reassemble(fs).messages
  }

  /** Bytes received are the encoding of the handled frames and then the buffer. */
  ghost predicate Incoming(handled: seq<Frame>, received: Bytes, rxbuf: Bytes) {
    AreFrames(handled) && received == EncodeAll(handled) + rxbuf
  }

  ghost predicate Inv(e: Endpoint) {
    && Outgoing(e.accepted, e.sent + e.txbuf)
    && CloseIsLast(e.accepted, e.readyState)
    && Whole(e.accepted)
    && Incoming(e.handled, e.received, e.rxbuf)
    && Assembled(e.handled, e.calls, e.receivedData)
    && |e.rxbuf| < MAX_SIZE
  }

  lemma FreshInv(useMask: bool)
    ensures Inv(Fresh(useMask)) && Messages(Fresh(useMask).accepted) == []
  {
  }

  // ----- one more frame -----

  lemma OutgoingMore(accepted: seq<Frame>, stream: Bytes, f: Frame)
    requires Outgoing(accepted, stream) && IsFrame(f)
    ensures Outgoing(accepted + [f], stream + Encode(f))
  {
    EncodeAllLast(accepted, f);
    hide Encode, EncodeAll, IsFrame;
  }

  lemma MessagesMore(accepted: seq<Frame>, f: Frame)
    requires Whole(accepted) && f.fin && f.opcode != CONTINUATION
    ensures Whole(accepted + [f])
    ensures Messages(accepted + [f]) == Messages(accepted) + if IsData(f) then [f.payload] else []
  {
    assert (accepted + [f])[..|accepted|] == accepted;
    assert [] + f.payload == f.payload;
  }

  lemma CloseMore(accepted: seq<Frame>, f: Frame)
    requires CloseIsLast(accepted, OPEN)
    ensures f.opcode != CLOSE ==> CloseIsLast(accepted + [f], OPEN)
    ensures f == CLOSE_FRAME ==> CloseIsLast(accepted + [f], CLOSING)
  {
  }

  lemma IncomingMore(handled: seq<Frame>, received: Bytes, f: Frame, rest: Bytes)
    requires Incoming(handled, received, Encode(f) + rest) && IsFrame(f)
    ensures Incoming(handled + [f], received, rest)
  {
    EncodeAllLast(handled, f);
    hide Encode, EncodeAll, IsFrame;
    assert EncodeAll(handled) + (Encode(f) + rest) == EncodeAll(handled) + Encode(f) + rest;
  }

  // ----- each step keeps the invariant -----

  lemma EnqueueKeeps(e: Endpoint, f: Frame, state: ReadyState)
    requires Inv(e) && e.readyState == OPEN && IsFrame(f) && f.fin && f.opcode != CONTINUATION
    requires if f == CLOSE_FRAME then state == CLOSING else f.opcode != CLOSE && state == OPEN
    ensures Inv(Enqueue(e, f).(readyState := state))
    ensures Messages(Enqueue(e, f).accepted) == Messages(e.accepted) + if IsData(f) then [f.payload] else []
  {
    hide Outgoing, CloseIsLast, Whole, Incoming, Assembled, Messages, Encode, IsFrame;
    OutgoingMore(e.accepted, e.sent + e.txbuf, f);
    MessagesMore(e.accepted, f);
    CloseMore(e.accepted, f);
    assert e.sent + (e.txbuf + Encode(f)) == e.sent + e.txbuf + Encode(f);
  }

  lemma InvIsOpen(e: Endpoint)
    requires Inv(e)
    ensures e.readyState != OPEN ==> Left(e.readyState)
  {
  }

  lemma SendDataKeeps(e: Endpoint, op: byte, payload: Bytes)
    requires Inv(e) && IsOpcode(op) && op != CONTINUATION && op != CLOSE && |payload| < MAX_SIZE
    ensures Inv(SendData(e, op, payload))
    ensures Messages(SendData(e, op, payload).accepted) == Messages(e.accepted)
            + if (op == TEXT_FRAME || op == BINARY_FRAME) && !Left(e.readyState) then [payload] else []
  {
    DataFrameIsFrame(op, payload, e.useMask);
    InvIsOpen(e);
    hide Inv, Encode, IsFrame, Messages;
    if Left(e.readyState) {
      assert Messages(e.accepted) + [] == Messages(e.accepted);
    } else {
      EnqueueKeeps(e, DataFrame(op, payload, e.useMask), OPEN);
    }
  }

  lemma CloseKeeps(e: Endpoint)
    requires Inv(e)
    ensures Inv(CloseIt(e)) && Messages(CloseIt(e).accepted) == Messages(e.accepted)
  {
    CloseFrameBytes();
    InvIsOpen(e);
    hide Inv, Encode, IsFrame, Messages;
    if !Left(e.readyState) {
      EnqueueKeeps(e, CLOSE_FRAME, CLOSING);
      assert Messages(e.accepted) + [] == Messages(e.accepted);
    }
  }

  /** The endpoint once a frame is taken off the buffer and, if it carries data, delivered. */
  function Taken(e: Endpoint, f: Frame, rest: Bytes): Endpoint {
    (if IsData(f) then Deliver(e, f) else e).(handled := e.handled + [f], rxbuf := rest)
  }

  lemma TakenKeeps(e: Endpoint, f: Frame, rest: Bytes)
    requires Inv(e) && IsFrame(f) && e.rxbuf == Encode(f) + rest
    ensures Inv(Taken(e, f, rest)) && Taken(e, f, rest).accepted == e.accepted
  {
    hide Outgoing, CloseIsLast, Whole, Incoming, Assembled, Encode, IsFrame;
    IncomingMore(e.handled, e.received, f, rest);
    AssembledMore(e, f);
  }

  /** Handling a frame is taking it off the buffer and then, for some frames, replying. */
  lemma HandleTaken(e: Endpoint, f: Frame, rest: Bytes)
    ensures var t := Taken(e, f, rest);
            Handle(e, f).(rxbuf := rest)
            == if IsData(f) || f.opcode == PONG then t
               else if f.opcode == PING then SendData(t, PONG, f.payload)
               else CloseIt(t)
  {
    hide Encode;
  }

  lemma HandleKeeps(e: Endpoint, f: Frame, rest: Bytes)
    requires Inv(e) && IsFrame(f) && |f.payload| < MAX_SIZE && e.rxbuf == Encode(f) + rest
    ensures Inv(Handle(e, f).(rxbuf := rest)) && Messages(Handle(e, f).accepted) == Messages(e.accepted)
  {
    hide Inv, IsFrame, Encode, Messages, Taken, Handle, SendData, CloseIt;
    var t := Taken(e, f, rest);
    TakenKeeps(e, f, rest);
    HandleTaken(e, f, rest);
    assert Handle(e, f).accepted == Handle(e, f).(rxbuf := rest).accepted;
    assert Messages(e.accepted) + [] == Messages(e.accepted);
    if IsData(f) || f.opcode == PONG {
    } else if f.opcode == PING {
      SendDataKeeps(t, PONG, f.payload);
    } else {
      CloseKeeps(t);
    }
  }

  lemma ConsumeKeeps(e: Endpoint)
    requires Inv(e) && Parse(e.rxbuf).Complete?
    ensures Inv(Consume(e)) && Messages(Consume(e).accepted) == Messages(e.accepted)
  {
    assert |e.rxbuf| < MAX_SIZE;
    hide Inv, Messages, Handle, Parse, Encode, IsFrame;
    ParseSound(e.rxbuf);
    var Complete(f, size) := Parse(e.rxbuf);
    assert |f.payload| <= |Encode(f)|;
    HandleKeeps(e, f, e.rxbuf[size..]);
  }

  lemma {:induction false} DispatchKeeps(e: Endpoint)
    requires Inv(e)
    ensures Inv(Dispatch(e)) && Messages(Dispatch(e).accepted) == Messages(e.accepted)
    decreases |e.rxbuf|
  {
    hide Inv, Messages, Parse, Handle;
    if Parse(e.rxbuf).Complete? {
      ConsumeKeeps(e);
      DispatchKeeps(Consume(e));
    }
  }

  lemma ReceiveKeeps(e: Endpoint, chunk: Bytes)
    requires Inv(e) && |e.rxbuf| + |chunk| < MAX_SIZE
    ensures Inv(Receive(e, chunk))
  {
    hide Outgoing, CloseIsLast, Whole, Assembled, AreFrames, EncodeAll;
    assert EncodeAll(e.handled) + e.rxbuf + chunk == EncodeAll(e.handled) + (e.rxbuf + chunk);
  }

  lemma TransmitKeeps(e: Endpoint, n: nat)
    requires Inv(e) && n <= |e.txbuf|
    ensures Inv(Transmit(e, n))
  {
    hide Outgoing, CloseIsLast, Whole, Incoming, Assembled;
    assert e.sent + e.txbuf[..n] + e.txbuf[n..] == e.sent + e.txbuf;
  }

  lemma StateKeeps(e: Endpoint)
    requires Inv(e)
    ensures Inv(Disconnect(e)) && Inv(Finish(e))
  {
    hide Outgoing, Whole, Incoming, Assembled;
  }

  lemma StepKeeps(e: Endpoint, s: Step)
    requires Inv(e) && Enabled(e, s)
    ensures Inv(Apply(e, s))
    ensures Messages(Apply(e, s).accepted) == Messages(e.accepted) + Submits(e, s)
  {
    hide Inv, Messages, Dispatch, SendData, CloseIt;
    assert Messages(e.accepted) + [] == Messages(e.accepted);
    match s
    case Send(m) => SendDataKeeps(e, TEXT_FRAME, m);
    case SendBinary(m) => SendDataKeeps(e, BINARY_FRAME, m);
    case SendPing => SendDataKeeps(e, PING, []);
    case Close => CloseKeeps(e);
    case DispatchCall => DispatchKeeps(e);
    case Recv(chunk) => ReceiveKeeps(e, chunk);
    case Push(n) => TransmitKeeps(e, n);
    case Drop => StateKeeps(e);
    case Flush => StateKeeps(e);
  }

  /** Every reachable endpoint satisfies the invariant, and the messages in its outgoing stream
      are exactly those submitted while it was OPEN. */
  lemma {:induction false} RunKeeps(e: Endpoint, steps: seq<Step>)
    requires Inv(e) && IsRun(e, steps)
    ensures Inv(Run(e, steps))
    ensures Messages(Run(e, steps).accepted) == Messages(e.accepted) + Submitted(e, steps)
    decreases |steps|
  {
    hide Inv, Messages, Apply, Submits, Enabled;
    if steps == [] {
      assert Messages(e.accepted) + [] == Messages(e.accepted);
    } else {
      StepKeeps(e, steps[0]);
      RunKeeps(Apply(e, steps[0]), steps[1..]);
    }
  }

  // ----- the life cycle -----

  function Rank(s: ReadyState): nat {
    match s
    case CONNECTING => 0
    case OPEN => 1
    case CLOSING => 2
    case CLOSED => 3
  }

  /** What one step may do to the ready state and to the histories. */
  ghost predicate Progress(e: Endpoint, e': Endpoint) {
    && Rank(e.readyState) <= Rank(e'.readyState)
    && e.accepted <= e'.accepted
    && (Left(e.readyState) ==> e'.accepted == e.accepted)
    && e.sent <= e'.sent
    && e.received <= e'.received
    && e.handled <= e'.handled
    && e.calls <= e'.calls
  }

  lemma ProgressTransitive(e0: Endpoint, e1: Endpoint, e2: Endpoint)
    requires Progress(e0, e1) && Progress(e1, e2)
    ensures Progress(e0, e2)
  {
  }

  lemma HandleProgress(e: Endpoint, f: Frame)
    ensures Progress(e, Handle(e, f))
    ensures Handle(e, f).readyState == CLOSED ==> e.readyState == CLOSED
  {
    hide Encode, IsFrame;
  }

  lemma {:induction false} DispatchProgress(e: Endpoint)
    ensures Progress(e, Dispatch(e))
    ensures Dispatch(e).readyState == CLOSED ==> e.readyState == CLOSED
    decreases |e.rxbuf|
  {
    hide Handle, Parse;
    if Parse(e.rxbuf).Complete? {
      ParseSound(e.rxbuf);
      HandleProgress(e, Parse(e.rxbuf).frame);
      DispatchProgress(Consume(e));
    }
  }

  lemma StepProgress(e: Endpoint, s: Step)
    requires Enabled(e, s)
    ensures Progress(e, Apply(e, s))
    ensures e.readyState != CLOSED && Apply(e, s).readyState == CLOSED ==>
              s == Drop || (s == Flush && e.readyState == CLOSING && e.txbuf == [])
  {
    hide Dispatch, Encode, IsFrame;
    if s.DispatchCall? {
      DispatchProgress(e);
    }
  }

  /** The ready state only moves forward, no history is ever rewritten, and nothing is accepted
      for sending once the connection has left OPEN. */
  lemma {:induction false} RunProgress(e: Endpoint, steps: seq<Step>)
    requires IsRun(e, steps)
    ensures Progress(e, Run(e, steps))
    decreases |steps|
  {
    hide Apply, Enabled, Progress;
    if steps == [] {
      ProgressReflexive(e);
    } else {
      StepProgress(e, steps[0]);
      RunProgress(Apply(e, steps[0]), steps[1..]);
      ProgressTransitive(e, Apply(e, steps[0]), Run(e, steps));
    }
  }

  lemma ProgressReflexive(e: Endpoint)
    ensures Progress(e, e)
  {
  }

  /** The outgoing stream of any run: whole frames, readable in one way only, with at most one
      CLOSE frame, at the very end. */
  lemma OutgoingStream(useMask: bool, steps: seq<Step>, fs: seq<Frame>)
    requires IsRun(Fresh(useMask), steps)
    ensures var e := Run(Fresh(useMask), steps);
            && AreFrames(e.accepted) && EncodeAll(e.accepted) == e.sent + e.txbuf
            && CloseIsLast(e.accepted, e.readyState)
            && (AreFrames(fs) && EncodeAll(fs) == e.sent + e.txbuf ==> fs == e.accepted)
  {
    FreshInv(useMask);
    RunKeeps(Fresh(useMask), steps);
    var e := Run(Fresh(useMask), steps);
    assert Outgoing(e.accepted, e.sent + e.txbuf);
    hide AreFrames, EncodeAll, IsRun, Run, CloseIsLast, Whole, Incoming, Assembled;
    if AreFrames(fs) && EncodeAll(fs) == e.sent + e.txbuf {
      UniqueFrames(fs, e.accepted);
    }
  }

  /** A connection that closes itself has sent everything it accepted, a CLOSE frame last. */
  lemma CleanClose(useMask: bool, steps: seq<Step>)
    requires IsRun(Fresh(useMask), steps)
    requires Run(Fresh(useMask), steps).readyState == CLOSING && Run(Fresh(useMask), steps).txbuf == []
    ensures var e := Run(Fresh(useMask), steps);
            && Finish(e).readyState == CLOSED
            && e.accepted != [] && e.accepted[|e.accepted| - 1] == CLOSE_FRAME
            && AreFrames(e.accepted) && e.sent == EncodeAll(e.accepted)
  {
    FreshInv(useMask);
    RunKeeps(Fresh(useMask), steps);
    var e := Run(Fresh(useMask), steps);
    hide AreFrames, EncodeAll, IsRun, Run, Whole, Incoming, Assembled;
    assert e.sent + [] == e.sent;
  }

  // ----- masking and the closing handshake -----

  /** All frames but the CLOSE frame are masked as the endpoint was told to (section 5.1). */
  ghost predicate Masking(accepted: seq<Frame>, useMask: bool) {
    forall f :: f in accepted ==> f.key.Some? == useMask || f == CLOSE_FRAME
  }

  /** Whoever has handled a CLOSE frame has left OPEN (section 5.5.1). */
  ghost predicate Answers(handled: seq<Frame>, state: ReadyState) {
    forall f :: f in handled && f.opcode == CLOSE ==> Left(state)
  }

  ghost predicate Conduct(e: Endpoint) {
    Masking(e.accepted, e.useMask) && Answers(e.handled, e.readyState)
  }

  /** Whoever has left OPEN has said so. This holds until the connection is lost. */
  ghost predicate SaysSo(e: Endpoint) {
    Left(e.readyState) ==> CLOSE_FRAME in e.accepted
  }

  ghost predicate Conducts(e: Endpoint, e': Endpoint) {
    e'.useMask == e.useMask && (Conduct(e) ==> Conduct(e')) && (SaysSo(e) ==> SaysSo(e'))
  }

  lemma SendDataConducts(e: Endpoint, op: byte, payload: Bytes)
    ensures Conducts(e, SendData(e, op, payload))
  {
    hide Encode;
  }

  lemma CloseConducts(e: Endpoint)
    ensures Conducts(e, CloseIt(e)) && Left(CloseIt(e).readyState)
    ensures Masking(e.accepted, e.useMask) ==> Masking(CloseIt(e).accepted, e.useMask)
    ensures CloseIt(e).handled == e.handled
  {
    hide Encode;
  }

  lemma HandleConducts(e: Endpoint, f: Frame, rest: Bytes)
    ensures Conducts(e, Handle(e, f).(rxbuf := rest))
  {
    var t := Taken(e, f, rest);
    HandleTaken(e, f, rest);
    assert t.handled == e.handled + [f] && t.accepted == e.accepted && t.readyState == e.readyState;
    assert f.opcode != CLOSE ==> Conducts(e, t);
    hide Handle, SendData, CloseIt, Taken;
    if IsData(f) || f.opcode == PONG {
    } else if f.opcode == PING {
      SendDataConducts(t, PONG, f.payload);
    } else {
      CloseConducts(t);
    }
  }

  lemma ConductsTransitive(e0: Endpoint, e1: Endpoint, e2: Endpoint)
    requires Conducts(e0, e1) && Conducts(e1, e2)
    ensures Conducts(e0, e2)
  {
  }

  lemma {:induction false} DispatchConducts(e: Endpoint)
    ensures Conducts(e, Dispatch(e))
    decreases |e.rxbuf|
  {
    hide Handle, Parse, Conduct, SaysSo;
    if Parse(e.rxbuf).Complete? {
      ParseSound(e.rxbuf);
      HandleConducts(e, Parse(e.rxbuf).frame, e.rxbuf[Parse(e.rxbuf).size..]);
      DispatchConducts(Consume(e));
      ConductsTransitive(e, Consume(e), Dispatch(e));
    }
  }

  lemma StepConducts(e: Endpoint, s: Step)
    requires Enabled(e, s)
    ensures s != Drop ==> Conducts(e, Apply(e, s))
    ensures Apply(e, s).useMask == e.useMask && (Conduct(e) ==> Conduct(Apply(e, s)))
  {
    hide Dispatch, SendData, CloseIt, Masking;
    match s
    case Send(m) => SendDataConducts(e, TEXT_FRAME, m);
    case SendBinary(m) => SendDataConducts(e, BINARY_FRAME, m);
    case SendPing => SendDataConducts(e, PING, []);
    case Close => CloseConducts(e);
    case DispatchCall => DispatchConducts(e);
    case Recv(chunk) =>
    case Push(n) =>
    case Drop =>
    case Flush =>
  }

  lemma {:induction false} RunConducts(e: Endpoint, steps: seq<Step>)
    requires IsRun(e, steps) && Conduct(e)
    ensures Conduct(Run(e, steps)) && Run(e, steps).useMask == e.useMask
    ensures Drop !in steps && SaysSo(e) ==> SaysSo(Run(e, steps))
    decreases |steps|
  {
    hide Apply, Enabled, Conduct, SaysSo;
    if steps != [] {
      StepConducts(e, steps[0]);
      RunConducts(Apply(e, steps[0]), steps[1..]);
    }
  }

  /** The CLOSE frame is masked even by an endpoint that is to send unmasked frames. So all frames are
      masked as told exactly as long as it is told to mask or has not sent a CLOSE; and unless the
      connection was lost, it has sent one exactly if its ready state says that it is closing. */
  lemma MaskingExactly(useMask: bool, steps: seq<Step>)
    requires IsRun(Fresh(useMask), steps)
    ensures var e := Run(Fresh(useMask), steps);
            && Masking(e.accepted, useMask)
            && ((forall f :: f in e.accepted ==> f.key.Some? == useMask) <==> useMask || CLOSE_FRAME !in e.accepted)
            && (CLOSE_FRAME in e.accepted ==> Left(e.readyState))
            && (Drop !in steps && Left(e.readyState) ==> CLOSE_FRAME in e.accepted)
  {
    FreshInv(useMask);
    RunKeeps(Fresh(useMask), steps);
    RunConducts(Fresh(useMask), steps);
    hide IsRun, Run, Outgoing, Whole, Incoming, Assembled;
  }

  /** An endpoint that is told not to mask, and closes. */
  lemma MaskedCloseExample()
    ensures IsRun(Fresh(false), [Close])
    ensures Run(Fresh(false), [Close]).accepted == [CLOSE_FRAME] && CLOSE_FRAME.key.Some?
  {
    assert [Close][1..] == [];
    assert [] + [CLOSE_FRAME] == [CLOSE_FRAME];
  }
}
