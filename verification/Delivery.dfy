/** Two endpoints of src/network/easywsclient.cpp joined by two first-in first-out byte channels.
    The theorems quantify over every interleaving of calls on both sides, every amount of bytes
    the sockets accept or yield, and connections that fail at any time. */
module Delivery {
  import opened Frames
  import opened Endpoints
  import opened EndpointRuns

  /** `toB` holds the bytes A has sent and B has not yet received; `toA` the converse. */
  datatype Net = Net(a: Endpoint, b: Endpoint, toA: Bytes, toB: Bytes)

  datatype Event = AtA(step: Step) | AtB(step: Step)

  function Start(maskA: bool, maskB: bool): Net {
    Net(Fresh(maskA), Fresh(maskB), [], [])
  }

  predicate Possible(n: Net, ev: Event) {
    match ev
    case AtA(s) => Enabled(n.a, s) && (s.Recv? ==> s.chunk <= n.toA)
    case AtB(s) => Enabled(n.b, s) && (s.Recv? ==> s.chunk <= n.toB)
  }

  function Unread(channel: Bytes, s: Step): Bytes
    requires s.Recv? ==> s.chunk <= channel
  {
    if s.Recv? then channel[|s.chunk|..] else channel
  }

  function Put(channel: Bytes, e: Endpoint, s: Step): Bytes
    requires Enabled(e, s)
  {
    if s.Push? then channel + e.txbuf[..s.n] else channel
  }

  function Next(n: Net, ev: Event): Net
    requires Possible(n, ev)
  {
    match ev
    case AtA(s) => Net(Apply(n.a, s), n.b, Unread(n.toA, s), Put(n.toB, n.a, s))
    case AtB(s) => Net(n.a, Apply(n.b, s), Put(n.toA, n.b, s), Unread(n.toB, s))
  }

  ghost predicate IsTrace(n: Net, evs: seq<Event>)
    decreases |evs|
  {
    evs != [] ==> Possible(n, evs[0]) && IsTrace(Next(n, evs[0]), evs[1..])
  }

  ghost function End(n: Net, evs: seq<Event>): Net
    requires IsTrace(n, evs)
    decreases |evs|
  {
    if evs == [] then n else End(Next(n, evs[0]), evs[1..])
  }

  /** The messages A's user submits while A's connection is OPEN. */
  ghost function SubmittedByA(n: Net, evs: seq<Event>): seq<Bytes>
    requires IsTrace(n, evs)
    decreases |evs|
  {
    if evs == [] then []
    else (if evs[0].AtA? then Submits(n.a, evs[0].step) else []) + SubmittedByA(Next(n, evs[0]), evs[1..])
  }

  ghost function SubmittedByB(n: Net, evs: seq<Event>): seq<Bytes>
    requires IsTrace(n, evs)
    decreases |evs|
  {
    if evs == [] then []
    else (if evs[0].AtB? then Submits(n.b, evs[0].step) else []) + SubmittedByB(Next(n, evs[0]), evs[1..])
  }

  /** Each channel holds exactly the bytes sent and not yet received. */
  ghost predicate Linked(sender: Endpoint, channel: Bytes, receiver: Endpoint) {
    receiver.received + channel == sender.sent
  }

  ghost predicate NetInv(n: Net) {
    Inv(n.a) && Inv(n.b) && Linked(n.a, n.toB, n.b) && Linked(n.b, n.toA, n.a)
  }

  lemma {:induction false} DispatchKeepsStreams(e: Endpoint)
    ensures Dispatch(e).sent == e.sent && Dispatch(e).received == e.received
    decreases |e.rxbuf|
  {
    hide Handle, Parse;
    if Parse(e.rxbuf).Complete? {
      ParseSound(e.rxbuf);
      HandleKeepsInput(e, Parse(e.rxbuf).frame, e.rxbuf);
      DispatchKeepsStreams(Consume(e));
    }
  }

  lemma ApplyStreams(e: Endpoint, s: Step)
    requires Enabled(e, s)
    ensures Apply(e, s).received == e.received + if s.Recv? then s.chunk else []
    ensures Apply(e, s).sent == e.sent + if s.Push? then e.txbuf[..s.n] else []
  {
    hide Dispatch, Encode, IsFrame;
    assert e.received + [] == e.received && e.sent + [] == e.sent;
    if s.DispatchCall? {
      DispatchKeepsStreams(e);
    }
  }

  lemma LinkKept(sender: Endpoint, channel: Bytes, receiver: Endpoint, s: Step)
    requires Linked(sender, channel, receiver)
    ensures Enabled(receiver, s) && (s.Recv? ==> s.chunk <= channel) ==>
              Linked(sender, Unread(channel, s), Apply(receiver, s))
    ensures Enabled(sender, s) ==> Linked(Apply(sender, s), Put(channel, sender, s), receiver)
  {
    hide Apply;
    if Enabled(receiver, s) && (s.Recv? ==> s.chunk <= channel) {
      ApplyStreams(receiver, s);
      if s.Recv? {
        assert channel == s.chunk + channel[|s.chunk|..];
        assert receiver.received + s.chunk + channel[|s.chunk|..] == receiver.received + channel;
      }
    }
    if Enabled(sender, s) {
      ApplyStreams(sender, s);
      if s.Push? {
        assert receiver.received + (channel + sender.txbuf[..s.n]) == receiver.received + channel + sender.txbuf[..s.n];
      }
    }
  }

  lemma EventKeeps(n: Net, ev: Event)
    requires NetInv(n) && Possible(n, ev)
    ensures NetInv(Next(n, ev))
    ensures Messages(Next(n, ev).a.accepted) == Messages(n.a.accepted) + if ev.AtA? then Submits(n.a, ev.step) else []
    ensures Messages(Next(n, ev).b.accepted) == Messages(n.b.accepted) + if ev.AtB? then Submits(n.b, ev.step) else []
  {
    hide Linked, Inv, Apply, Unread, Put, Enabled, Submits, Messages;
    assert Messages(n.a.accepted) + [] == Messages(n.a.accepted) && Messages(n.b.accepted) + [] == Messages(n.b.accepted);
    match ev
    case AtA(s) =>
      StepKeeps(n.a, s);
      LinkKept(n.a, n.toB, n.b, s);
      LinkKept(n.b, n.toA, n.a, s);
    case AtB(s) =>
      StepKeeps(n.b, s);
      LinkKept(n.a, n.toB, n.b, s);
      LinkKept(n.b, n.toA, n.a, s);
  }

  lemma {:induction false} TraceKeeps(n: Net, evs: seq<Event>)
    requires NetInv(n) && IsTrace(n, evs)
    ensures NetInv(End(n, evs))
    ensures Messages(End(n, evs).a.accepted) == Messages(n.a.accepted) + SubmittedByA(n, evs)
    ensures Messages(End(n, evs).b.accepted) == Messages(n.b.accepted) + SubmittedByB(n, evs)
    decreases |evs|
  {
    hide NetInv, Next, Possible, Submits, Messages;
    if evs == [] {
      assert Messages(n.a.accepted) + [] == Messages(n.a.accepted) && Messages(n.b.accepted) + [] == Messages(n.b.accepted);
    } else {
      EventKeeps(n, evs[0]);
      TraceKeeps(Next(n, evs[0]), evs[1..]);
    }
  }

  // ----- delivery -----

  lemma {:induction false} ReassemblePrefix(fs: seq<Frame>, gs: seq<Frame>)
    requires fs <= gs
    ensures Reassemble(fs).messages <= Reassemble(gs).messages
    decreases |gs|
  {
    if |fs| < |gs| {
      ReassemblePrefix(fs, gs[..|gs| - 1]);
    } else {
      assert fs == gs;
    }
  }

  /** What the receiver handled is, frame by frame, a prefix of what the sender accepted. */
  lemma HandledPrefix(sender: Endpoint, channel: Bytes, receiver: Endpoint)
    requires Inv(sender) && Inv(receiver) && Linked(sender, channel, receiver)
    ensures receiver.handled <= sender.accepted
    ensures receiver.rxbuf + channel + sender.txbuf == EncodeAll(sender.accepted[|receiver.handled|..])
  {
    hide IsFrame, Encode, Reassemble;
    var tail := receiver.rxbuf + channel + sender.txbuf;
    assert EncodeAll(receiver.handled) + tail
        == EncodeAll(receiver.handled) + receiver.rxbuf + channel + sender.txbuf;
    PrefixFrames(receiver.handled, tail, sender.accepted);
  }

  ghost predicate Drained(sender: Endpoint, channel: Bytes, receiver: Endpoint) {
    sender.txbuf == [] && channel == [] && !Parse(receiver.rxbuf).Complete?
  }

  lemma DrainedHandlesAll(sender: Endpoint, channel: Bytes, receiver: Endpoint)
    requires Inv(sender) && Inv(receiver) && Linked(sender, channel, receiver)
    requires Drained(sender, channel, receiver)
    ensures receiver.handled == sender.accepted && receiver.rxbuf == []
  {
    hide IsFrame, Encode, Reassemble, Parse;
    HandledPrefix(sender, channel, receiver);
    var left := sender.accepted[|receiver.handled|..];
    assert receiver.rxbuf + channel + sender.txbuf == receiver.rxbuf;
    if left != [] {
      EncodeAllFirst(left);
      ParseEncode(left[0], EncodeAll(left[1..]));
      assert false;
    }
  }

  lemma FramesOf(e: Endpoint)
    requires Inv(e)
    ensures AreFrames(e.accepted)
  {
  }

  lemma BeginsWithFrames(buf: Bytes, rest: Bytes, fs: seq<Frame>)
    requires AreFrames(fs) && buf + rest == EncodeAll(fs)
    ensures !Parse(buf).Overrun?
  {
    if fs == [] {
      assert buf == [];
    } else {
      hide IsFrame, Encode, Parse;
      EncodeAllFirst(fs);
      ParseEncode(fs[0], EncodeAll(fs[1..]));
      if Parse(buf).Overrun? {
        ParseExtend(buf, rest);
      }
    }
  }

  /** A header whose size wraps never comes from an endpoint: what is received is the beginning of
      the encoding of frames. */
  lemma NeverOverruns(sender: Endpoint, channel: Bytes, receiver: Endpoint)
    requires Inv(sender) && Inv(receiver) && Linked(sender, channel, receiver)
    ensures !Parse(receiver.rxbuf).Overrun?
  {
    hide IsFrame, Encode, EncodeAll, Reassemble, Parse, Outgoing, CloseIsLast, Whole, Incoming, Assembled;
    HandledPrefix(sender, channel, receiver);
    FramesOf(sender);
    var left, rest := sender.accepted[|receiver.handled|..], channel + sender.txbuf;
    assert receiver.rxbuf + rest == receiver.rxbuf + channel + sender.txbuf;
    BeginsWithFrames(receiver.rxbuf, rest, left);
  }

  lemma LinkDelivers(sender: Endpoint, channel: Bytes, receiver: Endpoint)
    requires Inv(sender) && Inv(receiver) && Linked(sender, channel, receiver)
    ensures receiver.calls <= Messages(sender.accepted)
    ensures Drained(sender, channel, receiver) ==>
              receiver.calls == Messages(sender.accepted) && receiver.receivedData == []
  {
    HandledPrefix(sender, channel, receiver);
    ReassemblePrefix(receiver.handled, sender.accepted);
    if Drained(sender, channel, receiver) {
      DrainedHandlesAll(sender, channel, receiver);
    }
  }

  /** End-to-end delivery, in both directions at once: at every moment of every run, the callbacks
      made on one side are a prefix of the messages submitted on the other while it was OPEN; and
      they are all of them once every byte has been sent, received and dispatched. Neither side ever
      sees a header whose size wraps. */
  lemma EndToEnd(maskA: bool, maskB: bool, evs: seq<Event>)
    requires IsTrace(Start(maskA, maskB), evs)
    ensures var start := Start(maskA, maskB);
            var n := End(start, evs);
            && n.b.calls <= SubmittedByA(start, evs)
            && n.a.calls <= SubmittedByB(start, evs)
            && (Drained(n.a, n.toB, n.b) ==> n.b.calls == SubmittedByA(start, evs))
            && (Drained(n.b, n.toA, n.a) ==> n.a.calls == SubmittedByB(start, evs))
            && !Parse(n.a.rxbuf).Overrun? && !Parse(n.b.rxbuf).Overrun?
  {
    var start := Start(maskA, maskB);
    StartInv(maskA, maskB);
    hide Start, Inv, IsTrace, End, Drained, Messages, SubmittedByA, SubmittedByB, Linked, Parse;
    TraceKeeps(start, evs);
    var n := End(start, evs);
    NeverOverruns(n.a, n.toB, n.b);
    NeverOverruns(n.b, n.toA, n.a);
    LinkDelivers(n.a, n.toB, n.b);
    LinkDelivers(n.b, n.toA, n.a);
    assert [] + SubmittedByA(start, evs) == SubmittedByA(start, evs);
    assert [] + SubmittedByB(start, evs) == SubmittedByB(start, evs);
  }

  lemma StartInv(maskA: bool, maskB: bool)
    ensures var n := Start(maskA, maskB);
            NetInv(n) && Messages(n.a.accepted) == [] && Messages(n.b.accepted) == []
  {
    FreshInv(maskA);
    FreshInv(maskB);
  }

  // ----- the closing handshake -----

  /** The steps that one side makes in a trace. */
  function StepsOfA(evs: seq<Event>): seq<Step>
    decreases |evs|
  {
    if evs == [] then [] else (if evs[0].AtA? then [evs[0].step] else []) + StepsOfA(evs[1..])
  }

  function StepsOfB(evs: seq<Event>): seq<Step>
    decreases |evs|
  {
    if evs == [] then [] else (if evs[0].AtB? then [evs[0].step] else []) + StepsOfB(evs[1..])
  }

  /** Each side of a trace is a run of its own. */
  lemma {:induction false} SidesRun(n: Net, evs: seq<Event>)
    requires IsTrace(n, evs)
    ensures IsRun(n.a, StepsOfA(evs)) && Run(n.a, StepsOfA(evs)) == End(n, evs).a
    ensures IsRun(n.b, StepsOfB(evs)) && Run(n.b, StepsOfB(evs)) == End(n, evs).b
    decreases |evs|
  {
    hide Apply, Enabled;
    if evs != [] {
      SidesRun(Next(n, evs[0]), evs[1..]);
      var a, b := StepsOfA(evs), StepsOfB(evs);
      assert evs[0].AtA? ==> a[0] == evs[0].step && a[1..] == StepsOfA(evs[1..]) && b == StepsOfB(evs[1..]);
      assert evs[0].AtB? ==> b[0] == evs[0].step && b[1..] == StepsOfB(evs[1..]) && a == StepsOfA(evs[1..]);
    }
  }

  lemma {:induction false} DropsOfSides(evs: seq<Event>)
    ensures Drop in StepsOfA(evs) ==> AtA(Drop) in evs
    ensures Drop in StepsOfB(evs) ==> AtB(Drop) in evs
    decreases |evs|
  {
    if evs != [] {
      DropsOfSides(evs[1..]);
    }
  }

  /** A sender that has closed, and a receiver that everything has reached. */
  lemma CloseArrives(sender: Endpoint, channel: Bytes, receiver: Endpoint)
    requires Inv(sender) && Inv(receiver) && Linked(sender, channel, receiver) && Conduct(receiver)
    requires Drained(sender, channel, receiver) && CLOSE_FRAME in sender.accepted
    ensures CLOSE_FRAME in receiver.handled && Left(receiver.readyState)
    ensures SaysSo(receiver) ==> CLOSE_FRAME in receiver.accepted
  {
    hide Drained, Inv, Linked;
    DrainedHandlesAll(sender, channel, receiver);
    assert CLOSE_FRAME.opcode == CLOSE;
  }

  ghost predicate EndsInClose(accepted: seq<Frame>) {
    && accepted != [] && accepted[|accepted| - 1] == CLOSE_FRAME
    && forall i :: 0 <= i < |accepted| - 1 ==> accepted[i].opcode != CLOSE
  }

  lemma CloseEnds(e: Endpoint)
    requires Inv(e)
    ensures CLOSE_FRAME in e.accepted ==> EndsInClose(e.accepted)
  {
    hide Outgoing, Whole, Incoming, Assembled;
    if CLOSE_FRAME in e.accepted {
      var i :| 0 <= i < |e.accepted| && e.accepted[i] == CLOSE_FRAME;
      assert e.accepted[i].opcode == CLOSE;
    }
  }

  /** The closing handshake (section 5.5.1): once everything that one side has accepted is handled by
      the other and a CLOSE was among it, the other side has left OPEN too; and unless it lost its
      connection it has accepted a CLOSE of its own, as its last frame. */
  lemma ClosingHandshake(maskA: bool, maskB: bool, evs: seq<Event>)
    requires IsTrace(Start(maskA, maskB), evs)
    ensures var n := End(Start(maskA, maskB), evs);
            && (CLOSE_FRAME in n.a.accepted && Drained(n.a, n.toB, n.b) ==>
                  Left(n.b.readyState) && (AtB(Drop) !in evs ==> EndsInClose(n.b.accepted)))
            && (CLOSE_FRAME in n.b.accepted && Drained(n.b, n.toA, n.a) ==>
                  Left(n.a.readyState) && (AtA(Drop) !in evs ==> EndsInClose(n.a.accepted)))
  {
    var start := Start(maskA, maskB);
    StartInv(maskA, maskB);
    assert Conduct(start.a) && Conduct(start.b) && SaysSo(start.a) && SaysSo(start.b);
    hide Start, Inv, IsTrace, End, Drained, Messages, Linked, Conduct, SaysSo, IsRun, Run, EndsInClose;
    TraceKeeps(start, evs);
    SidesRun(start, evs);
    DropsOfSides(evs);
    RunConducts(start.a, StepsOfA(evs));
    RunConducts(start.b, StepsOfB(evs));
    var n := End(start, evs);
    CloseEnds(n.a);
    CloseEnds(n.b);
    if CLOSE_FRAME in n.a.accepted && Drained(n.a, n.toB, n.b) {
      CloseArrives(n.a, n.toB, n.b);
    }
    if CLOSE_FRAME in n.b.accepted && Drained(n.b, n.toA, n.a) {
      CloseArrives(n.b, n.toA, n.a);
    }
  }

  // ----- when delivery can be completed -----

  lemma {:induction false} DispatchTxbuf(e: Endpoint)
    ensures |Dispatch(e).txbuf| >= |e.txbuf|
    ensures e.readyState == CLOSED ==> Dispatch(e).readyState == CLOSED && Dispatch(e).txbuf == e.txbuf
    decreases |e.rxbuf|
  {
    hide Handle, Parse;
    if Parse(e.rxbuf).Complete? {
      ParseSound(e.rxbuf);
      HandleTxbuf(e, Parse(e.rxbuf).frame);
      DispatchTxbuf(Consume(e));
    }
  }

  lemma HandleTxbuf(e: Endpoint, f: Frame)
    ensures |Handle(e, f).txbuf| >= |e.txbuf|
    ensures e.readyState == CLOSED ==> Handle(e, f).readyState == CLOSED && Handle(e, f).txbuf == e.txbuf
  {
    hide Encode;
  }

  /** What is waiting is only taken away by sending it, and a closed endpoint sends and receives nothing. */
  lemma ApplyTxbuf(e: Endpoint, s: Step)
    requires Enabled(e, s)
    ensures |Apply(e, s).txbuf| >= |e.txbuf| - if s.Push? then s.n else 0
    ensures e.readyState == CLOSED ==>
              Apply(e, s).readyState == CLOSED && Apply(e, s).txbuf == e.txbuf && !s.Push? && !s.Recv?
  {
    hide Dispatch, Encode;
    if s.DispatchCall? {
      DispatchTxbuf(e);
    }
  }

  ghost predicate DrainedToB(n: Net) {
    Drained(n.a, n.toB, n.b)
  }

  ghost predicate CanDeliver(n: Net) {
    && (n.a.txbuf == [] || n.a.readyState != CLOSED)
    && (n.toB + n.a.txbuf == [] || n.b.readyState != CLOSED)
  }

  lemma StuckStays(n: Net, ev: Event)
    requires Possible(n, ev) && !CanDeliver(n)
    ensures !CanDeliver(Next(n, ev))
  {
    hide Apply;
    var n' := Next(n, ev);
    assert |n.toB + n.a.txbuf| == |n.toB| + |n.a.txbuf| && |n'.toB + n'.a.txbuf| == |n'.toB| + |n'.a.txbuf|;
    match ev
    case AtA(s) => ApplyTxbuf(n.a, s);
    case AtB(s) => ApplyTxbuf(n.b, s);
  }

  lemma {:induction false} StuckForEver(n: Net, evs: seq<Event>)
    requires IsTrace(n, evs) && !CanDeliver(n)
    ensures !DrainedToB(End(n, evs))
    decreases |evs|
  {
    hide Possible, Next;
    if evs != [] {
      StuckStays(n, evs[0]);
      StuckForEver(Next(n, evs[0]), evs[1..]);
    } else {
      assert n.toB == [] && n.a.txbuf == [] ==> n.toB + n.a.txbuf == [];
    }
  }

  lemma TraceStep(n: Net, ev: Event, evs: seq<Event>)
    requires Possible(n, ev) && IsTrace(Next(n, ev), evs)
    ensures IsTrace(n, [ev] + evs) && End(n, [ev] + evs) == End(Next(n, ev), evs)
    ensures SubmittedByA(n, [ev] + evs) == (if ev.AtA? then Submits(n.a, ev.step) else []) + SubmittedByA(Next(n, ev), evs)
  {
    hide Possible, Next, Submits;
    assert ([ev] + evs)[1..] == evs;
  }

  lemma NoTrace(n: Net)
    ensures IsTrace(n, []) && End(n, []) == n && SubmittedByA(n, []) == []
  {
  }

  lemma {:induction false} TraceConcat(n: Net, evs1: seq<Event>, evs2: seq<Event>)
    requires IsTrace(n, evs1) && IsTrace(End(n, evs1), evs2)
    ensures IsTrace(n, evs1 + evs2) && End(n, evs1 + evs2) == End(End(n, evs1), evs2)
    ensures SubmittedByA(n, evs1 + evs2) == SubmittedByA(n, evs1) + SubmittedByA(End(n, evs1), evs2)
    decreases |evs1|
  {
    hide Possible, Next, Submits;
    if evs1 == [] {
      assert evs1 + evs2 == evs2;
    } else {
      assert (evs1 + evs2)[1..] == evs1[1..] + evs2;
      TraceConcat(Next(n, evs1[0]), evs1[1..], evs2);
      var now := if evs1[0].AtA? then Submits(n.a, evs1[0].step) else [];
      var n' := Next(n, evs1[0]);
      assert now + (SubmittedByA(n', evs1[1..]) + SubmittedByA(End(n', evs1[1..]), evs2))
          == now + SubmittedByA(n', evs1[1..]) + SubmittedByA(End(n', evs1[1..]), evs2);
    }
  }

  // ----- polls -----

  function AllAtA(steps: seq<Step>): seq<Event> {
    seq(|steps|, i requires 0 <= i < |steps| => AtA(steps[i]))
  }

  function AllAtB(steps: seq<Step>): seq<Event> {
    seq(|steps|, i requires 0 <= i < |steps| => AtB(steps[i]))
  }

  /** The bytes of a channel as recv calls yield them. */
  function Chunks(channel: Bytes): seq<Bytes>
    decreases |channel|
  {
    if channel == [] then []
    else
      var k := if |channel| <= RECV_SIZE then |channel| else RECV_SIZE;
      [channel[..k]] + Chunks(channel[k..])
  }

  /** One send call that takes all. */
  function TakeAll(waiting: Bytes): seq<nat> {
    if waiting == [] then [] else [|waiting|]
  }

  /** One poll of A in which the socket takes everything, one poll of B that yields all of it, one dispatch. */
  ghost function DeliverToB(n: Net): seq<Event> {
    AllAtA(PollSteps(n.a, [], false, TakeAll(n.a.txbuf), false)) +
    (AllAtB(PollSteps(n.b, Chunks(n.toB + n.a.txbuf), false, [], false)) + [AtB(DispatchCall)])
  }

  /** The socket calls of these polls are possible. */
  ghost predicate PollsFit(n: Net) {
    SendsFit(TakeAll(n.a.txbuf), |n.a.txbuf|) && RecvsFit(Chunks(n.toB + n.a.txbuf), |n.b.rxbuf|)
  }

  lemma {:induction false} ChunksFit(channel: Bytes, held: nat)
    requires held + |channel| < MAX_SIZE
    ensures RecvsFit(Chunks(channel), held)
    decreases |channel|
  {
    if channel != [] {
      var k := if |channel| <= RECV_SIZE then |channel| else RECV_SIZE;
      ChunksFit(channel[k..], held + k);
      assert Chunks(channel)[1..] == Chunks(channel[k..]);
    }
  }

  lemma {:induction false} RecvStepsFirst(c: Bytes, rest: seq<Bytes>)
    ensures RecvSteps([c] + rest) == [Recv(c)] + RecvSteps(rest)
  {
    var all := [c] + rest;
    if rest == [] {
      assert all[..0] == [];
    } else {
      RecvStepsFirst(c, rest[..|rest| - 1]);
      assert all[..|all| - 1] == [c] + rest[..|rest| - 1];
    }
  }

  lemma TraceOne(n: Net, ev: Event)
    requires Possible(n, ev)
    ensures IsTrace(n, [ev]) && End(n, [ev]) == Next(n, ev)
    ensures SubmittedByA(n, [ev]) == if ev.AtA? then Submits(n.a, ev.step) else []
  {
    hide Possible, Next, Submits;
    assert [ev][1..] == [];
  }

  /** A poll of A in which the socket takes everything. */
  lemma PollA(n: Net)
    requires n.a.txbuf == [] || n.a.readyState != CLOSED
    ensures var evs := AllAtA(PollSteps(n.a, [], false, TakeAll(n.a.txbuf), false));
            && IsTrace(n, evs) && SubmittedByA(n, evs) == []
            && var n' := End(n, evs);
               n'.a.txbuf == [] && n'.toB == n.toB + n.a.txbuf && n'.b == n.b
  {
    var evs := AllAtA(PollSteps(n.a, [], false, TakeAll(n.a.txbuf), false));
    assert n.toB + [] == n.toB;
    if n.a.readyState == CLOSED {
      assert evs == [];
    } else if n.a.txbuf == [] {
      assert evs == [AtA(Flush)];
      TraceOne(n, AtA(Flush));
    } else {
      var push := AtA(Push(|n.a.txbuf|));
      PushAllSteps(|n.a.txbuf|);
      assert n.a.txbuf[..|n.a.txbuf|] == n.a.txbuf;
      var n' := Next(n, push);
      TraceOne(n', AtA(Flush));
      assert evs == [push] + [AtA(Flush)];
      TraceStep(n, push, [AtA(Flush)]);
    }
  }

  lemma PushAllSteps(waiting: nat)
    requires waiting > 0
    ensures Received([], false) + Pushed([waiting], false, waiting) + [Flush] == [Push(waiting), Flush]
  {
    assert [waiting][..0] == [];
    assert PushSteps([waiting]) == [] + [Push(waiting)];
    assert Received([], false) + Pushed([waiting], false, waiting) == [Push(waiting)];
  }

  lemma TakeAllFits(waiting: Bytes)
    ensures SendsFit(TakeAll(waiting), |waiting|)
  {
    assert [|waiting|][1..] == [];
  }

  lemma RecvOne(n: Net, k: nat)
    requires n.b.readyState != CLOSED && 0 < k <= |n.toB| && k <= RECV_SIZE && |n.b.rxbuf| + k < MAX_SIZE
    ensures var ev := AtB(Recv(n.toB[..k]));
            && Possible(n, ev)
            && var n' := Next(n, ev);
               && n'.a == n.a && n'.toB == n.toB[k..]
               && n'.b.readyState == n.b.readyState && |n'.b.rxbuf| == |n.b.rxbuf| + k
  {
  }

  /** Recv calls that yield everything that is on its way. */
  lemma {:induction false} ReceiveAll(n: Net)
    requires n.b.readyState != CLOSED && |n.b.rxbuf| + |n.toB| < MAX_SIZE
    ensures var evs := AllAtB(RecvSteps(Chunks(n.toB)));
            && IsTrace(n, evs) && SubmittedByA(n, evs) == []
            && var n' := End(n, evs); n'.toB == [] && n'.a == n.a && n'.b.readyState == n.b.readyState
    decreases |n.toB|
  {
    hide Next, Possible;
    if n.toB != [] {
      var k := if |n.toB| <= RECV_SIZE then |n.toB| else RECV_SIZE;
      var first, rest := n.toB[..k], Chunks(n.toB[k..]);
      var ev := AtB(Recv(first));
      RecvOne(n, k);
      ReceiveAll(Next(n, ev));
      RecvStepsFirst(first, rest);
      assert AllAtB(RecvSteps(Chunks(n.toB))) == [ev] + AllAtB(RecvSteps(rest));
      hide IsTrace, End, SubmittedByA;
      TraceStep(n, ev, AllAtB(RecvSteps(rest)));
    }
  }

  lemma FlushOne(n: Net)
    requires n.b.readyState != CLOSED
    ensures var ev := AtB(Flush); Possible(n, ev) && Next(n, ev).a == n.a && Next(n, ev).toB == n.toB
  {
  }

  /** A poll of B that yields everything that is on its way. */
  lemma PollReceives(n: Net)
    requires |n.b.rxbuf| + |n.toB| < MAX_SIZE && (n.toB == [] || n.b.readyState != CLOSED)
    ensures var evs := AllAtB(PollSteps(n.b, Chunks(n.toB), false, [], false));
            && IsTrace(n, evs) && SubmittedByA(n, evs) == []
            && End(n, evs).toB == [] && End(n, evs).a == n.a
  {
    var poll := AllAtB(PollSteps(n.b, Chunks(n.toB), false, [], false));
    if n.b.readyState == CLOSED {
      assert poll == [];
      NoTrace(n);
    } else {
      var received := AllAtB(RecvSteps(Chunks(n.toB)));
      assert poll == received + [AtB(Flush)];
      ReceiveAll(n);
      hide IsTrace, End, SubmittedByA, Next, Possible;
      FlushOne(End(n, received));
      TraceOne(End(n, received), AtB(Flush));
      TraceConcat(n, received, [AtB(Flush)]);
    }
  }

  lemma DispatchDrains(n: Net)
    requires n.a.txbuf == [] && n.toB == []
    ensures Possible(n, AtB(DispatchCall)) && DrainedToB(Next(n, AtB(DispatchCall)))
  {
    hide Dispatch, Parse;
    DispatchKeepsSize(n.b);
  }

  lemma PollB(n: Net)
    requires n.a.txbuf == [] && |n.b.rxbuf| + |n.toB| < MAX_SIZE && (n.toB == [] || n.b.readyState != CLOSED)
    ensures var evs := AllAtB(PollSteps(n.b, Chunks(n.toB), false, [], false)) + [AtB(DispatchCall)];
            IsTrace(n, evs) && SubmittedByA(n, evs) == [] && DrainedToB(End(n, evs))
  {
    hide IsTrace, End, SubmittedByA, PollSteps, Chunks, Next, Possible, DrainedToB;
    var poll := AllAtB(PollSteps(n.b, Chunks(n.toB), false, [], false));
    PollReceives(n);
    DispatchDrains(End(n, poll));
    TraceOne(End(n, poll), AtB(DispatchCall));
    TraceConcat(n, poll, [AtB(DispatchCall)]);
  }

  lemma DeliveryCompletes(n: Net)
    requires |n.b.rxbuf| + |n.toB| + |n.a.txbuf| < MAX_SIZE && CanDeliver(n)
    ensures PollsFit(n) && IsTrace(n, DeliverToB(n)) && DrainedToB(End(n, DeliverToB(n)))
    ensures SubmittedByA(n, DeliverToB(n)) == []
  {
    ChunksFit(n.toB + n.a.txbuf, |n.b.rxbuf|);
    TakeAllFits(n.a.txbuf);
    assert n.a.txbuf == [] ==> n.toB + n.a.txbuf == n.toB;
    hide DrainedToB, IsTrace, End, SubmittedByA, PollSteps, Chunks, SendsFit, RecvsFit;
    var first := AllAtA(PollSteps(n.a, [], false, TakeAll(n.a.txbuf), false));
    PollA(n);
    var n' := End(n, first);
    PollB(n');
    TraceConcat(n, first, AllAtB(PollSteps(n'.b, Chunks(n'.toB), false, [], false)) + [AtB(DispatchCall)]);
  }

  /** When A's outgoing stream can still be delivered in full, as long as B's buffer can hold it: exactly
      when A is not closed with bytes waiting, and B is not closed with bytes waiting or on their way.
      Then one poll of A, one poll and one dispatch of B do it; otherwise no trace at all does. */
  lemma DeliveryPossible(n: Net)
    requires |n.b.rxbuf| + |n.toB| + |n.a.txbuf| < MAX_SIZE
    ensures CanDeliver(n) <==> exists evs :: IsTrace(n, evs) && DrainedToB(End(n, evs))
    ensures CanDeliver(n) ==>
              var evs := DeliverToB(n);
              PollsFit(n) && IsTrace(n, evs) && DrainedToB(End(n, evs)) && SubmittedByA(n, evs) == []
  {
    if CanDeliver(n) {
      DeliveryCompletes(n);
    } else {
      forall evs | IsTrace(n, evs) ensures !DrainedToB(End(n, evs)) {
        StuckForEver(n, evs);
      }
    }
  }

  /** What a closed endpoint has not received it will never hear. */
  lemma {:induction false} ClosedHearsNothing(n: Net, evs: seq<Event>)
    requires IsTrace(n, evs) && n.b.readyState == CLOSED && n.b.rxbuf == []
    ensures End(n, evs).b.calls == n.b.calls
    decreases |evs|
  {
    if evs != [] {
      var n' := Next(n, evs[0]);
      if evs[0].AtB? {
        ClosedStep(n.b, evs[0].step);
      }
      hide Possible, Next;
      ClosedHearsNothing(n', evs[1..]);
    }
  }

  lemma ClosedStep(e: Endpoint, s: Step)
    requires Enabled(e, s) && e.readyState == CLOSED && e.rxbuf == []
    ensures Apply(e, s).readyState == CLOSED && Apply(e, s).rxbuf == [] && Apply(e, s).calls == e.calls
  {
    assert Parse([]).Incomplete?;
    hide Encode;
  }

  lemma TraceOfFour(n0: Net, e0: Event, n1: Net, e1: Event, n2: Net, e2: Event, n3: Net, e3: Event, n4: Net)
    requires Possible(n0, e0) && n1 == Next(n0, e0) && Possible(n1, e1) && n2 == Next(n1, e1)
    requires Possible(n2, e2) && n3 == Next(n2, e2) && Possible(n3, e3) && n4 == Next(n3, e3)
    requires e1.AtB? && e2.AtB? && e3.AtB?
    ensures IsTrace(n0, [e0, e1, e2, e3]) && End(n0, [e0, e1, e2, e3]) == n4
    ensures SubmittedByA(n0, [e0, e1, e2, e3]) == if e0.AtA? then Submits(n0.a, e0.step) else []
  {
    hide Possible, Next, Submits, IsTrace, End, SubmittedByA;
    assert [e3] + [] == [e3] && [e2] + [e3] == [e2, e3] && [e1] + [e2, e3] == [e1, e2, e3];
    assert [e0] + [e1, e2, e3] == [e0, e1, e2, e3];
    NoTrace(n4);
    TraceStep(n3, e3, []);
    TraceStep(n2, e2, [e3]);
    TraceStep(n1, e1, [e2, e3]);
    TraceStep(n0, e0, [e1, e2, e3]);
    ghost var none: seq<Bytes> := [];
    assert none + none == none && Submits(n0.a, e0.step) + none == Submits(n0.a, e0.step);
  }

  /** An endpoint that closes and flushes is closed. */
  lemma CloseAndFlush(e: Endpoint)
    requires e == Fresh(false)
    ensures var e1 := CloseIt(e);
            && |e1.txbuf| == 6 && e1.readyState == CLOSING
            && var e2 := Transmit(e1, 6);
               && e2.txbuf == [] && e2.readyState == CLOSING
               && Finish(e2).readyState == CLOSED && Finish(e2).rxbuf == [] && Finish(e2).calls == []
  {
    CloseFrameBytes();
    hide Encode;
    assert [] + Encode(CLOSE_FRAME) == Encode(CLOSE_FRAME);
  }

  /** A message lost without any failure: B closes, flushes its CLOSE and closes the socket while A,
      still OPEN, has accepted the message. */
  lemma LostOnClose(m: Bytes, evs: seq<Event>)
    requires |m| < MAX_SIZE
    ensures var start, closing := Start(false, false), [AtA(Send(m)), AtB(Close), AtB(Push(6)), AtB(Flush)];
            && IsTrace(start, closing) && SubmittedByA(start, closing) == [m]
            && var n := End(start, closing);
               && n.a.readyState == OPEN && n.b.readyState == CLOSED
               && (IsTrace(n, evs) ==> End(n, evs).b.calls == [])
  {
    hide Encode, IsTrace, End, SubmittedByA, CloseIt, Transmit, Finish;
    var start := Start(false, false);
    CloseAndFlush(start.b);
    var n1 := Next(start, AtA(Send(m)));
    var n2 := Next(n1, AtB(Close));
    var n3 := Next(n2, AtB(Push(6)));
    var n4 := Next(n3, AtB(Flush));
    TraceOfFour(start, AtA(Send(m)), n1, AtB(Close), n2, AtB(Push(6)), n3, AtB(Flush), n4);
    if IsTrace(n4, evs) {
      ClosedHearsNothing(n4, evs);
    }
  }
}
