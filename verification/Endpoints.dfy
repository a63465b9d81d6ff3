/** One WebSocket endpoint as a state machine: what each method of `_RealWebSocket`
    (src/network/easywsclient.cpp) does to its buffers and to its ready state. */
module Endpoints {
  import opened Frames

  datatype ReadyState = CLOSING | CLOSED | CONNECTING | OPEN

  /** The fields of the original, then four histories it does not keep: every byte received and
      sent, every frame handled and accepted for sending, and every callback made. */
  datatype Endpoint = Endpoint(
    rxbuf: Bytes, txbuf: Bytes, receivedData: Bytes, readyState: ReadyState, useMask: bool,
    received: Bytes, sent: Bytes, handled: seq<Frame>, accepted: seq<Frame>, calls: seq<Bytes>)

  function Fresh(useMask: bool): Endpoint {
    Endpoint([], [], [], OPEN, useMask, [], [], [], [], [])
  }

  predicate Left(s: ReadyState) {
    s == CLOSING || s == CLOSED
  }

  // ----- what the methods do -----

  function Enqueue(e: Endpoint, f: Frame): Endpoint {
    e.(txbuf := e.txbuf + Encode(f), accepted := e.accepted + [f])
  }

  function SendData(e: Endpoint, op: byte, payload: Bytes): Endpoint
  {
    if Left(e.readyState) then e else Enqueue(e, DataFrame(op, payload, e.useMask))
  }

  function CloseIt(e: Endpoint): Endpoint {
    if Left(e.readyState) then e else Enqueue(e.(readyState := CLOSING), CLOSE_FRAME)
  }

  predicate IsData(f: Frame) {
    f.opcode == TEXT_FRAME || f.opcode == BINARY_FRAME || f.opcode == CONTINUATION
  }

  function Deliver(e: Endpoint, f: Frame): Endpoint {
    var all := e.receivedData + f.payload;
    if f.fin then e.(calls := e.calls + [all], receivedData := []) else e.(receivedData := all)
  }

  function Handle(e: Endpoint, f: Frame): Endpoint {
    var e' := e.(handled := e.handled + [f]);
    if IsData(f) then Deliver(e', f)
    else if f.opcode == PING then SendData(e', PONG, f.payload)
    else if f.opcode == PONG then e'
    else CloseIt(e')
  }

  /** One pass of the receive loop on a complete frame. */
  function Consume(e: Endpoint): (r: Endpoint)
    requires Parse(e.rxbuf).Complete?
  {
    Handle(e, Parse(e.rxbuf).frame).(rxbuf := e.rxbuf[Parse(e.rxbuf).size..])
  }

  /** The receive loop. It stops for want of bytes or at a header whose size wraps; each pass
      removes at least the two bytes of a smallest frame. */
  function Dispatch(e: Endpoint): Endpoint
    decreases |e.rxbuf|
  {
    if Parse(e.rxbuf).Complete? then Dispatch(Consume(e)) else e
  }

  function Receive(e: Endpoint, chunk: Bytes): Endpoint {
    e.(rxbuf := e.rxbuf + chunk, received := e.received + chunk)
  }

  function Transmit(e: Endpoint, n: nat): Endpoint
    requires n <= |e.txbuf|
  {
    e.(txbuf := e.txbuf[n..], sent := e.sent + e.txbuf[..n])
  }

  function Disconnect(e: Endpoint): Endpoint {
    e.(readyState := CLOSED)
  }

  function Finish(e: Endpoint): Endpoint {
    if e.txbuf == [] && e.readyState == CLOSING then e.(readyState := CLOSED) else e
  }

  // ----- the reassembly specification (sections 5.2 to 5.4 of RFC 6455) -----

  datatype Assembly = Assembly(messages: seq<Bytes>, pending: Bytes)

  ghost function Reassemble(fs: seq<Frame>): Assembly {
    if fs == [] then Assembly([], [])
    else
      var f := fs[|fs| - 1];
      var before := Reassemble(fs[..|fs| - 1]);
      if !IsData(f) then before
      else if f.fin then Assembly(before.messages + [before.pending + f.payload], [])
      else Assembly(before.messages, before.pending + f.payload)
  }

  ghost function Join(ms: seq<Bytes>): Bytes {
    if ms == [] then [] else Join(ms[..|ms| - 1]) + ms[|ms| - 1]
  }

  ghost function DataPayloads(fs: seq<Frame>): seq<Bytes> {
    if fs == [] then []
    else if IsData(fs[|fs| - 1]) then DataPayloads(fs[..|fs| - 1]) + [fs[|fs| - 1].payload]
    else DataPayloads(fs[..|fs| - 1])
  }

  ghost function FinalCount(fs: seq<Frame>): nat {
    if fs == [] then 0
    else FinalCount(fs[..|fs| - 1]) + if IsData(fs[|fs| - 1]) && fs[|fs| - 1].fin then 1 else 0
  }

  /** No data byte is lost, repeated, reordered or taken from a control frame, and there is one
      message for every data frame with FIN set. */
  lemma {:induction false} ReassemblyConserves(fs: seq<Frame>)
    ensures Join(Reassemble(fs).messages) + Reassemble(fs).pending == Join(DataPayloads(fs))
    ensures |Reassemble(fs).messages| == FinalCount(fs)
  {
    if fs != [] {
      var front, f := fs[..|fs| - 1], fs[|fs| - 1];
      ReassemblyConserves(front);
      var before := Reassemble(front);
      if IsData(f) {
        assert DataPayloads(fs)[..|DataPayloads(fs)| - 1] == DataPayloads(front);
        if f.fin {
          var ms := Reassemble(fs).messages;
          assert ms[..|ms| - 1] == before.messages;
        }
      }
    }
  }

  /** Control frames may be put anywhere among the fragments of a message (section 5.4). */
  lemma {:induction false} ControlFramesAreTransparent(fs: seq<Frame>, c: Frame, gs: seq<Frame>)
    requires !IsData(c)
    ensures Reassemble(fs + [c] + gs) == Reassemble(fs + gs)
  {
    if gs == [] {
      assert fs + [c] + gs == fs + [c];
      assert (fs + [c])[..|fs|] == fs && fs + gs == fs;
    } else {
      var front := gs[..|gs| - 1];
      ControlFramesAreTransparent(fs, c, front);
      assert (fs + [c] + gs)[..|fs + [c] + gs| - 1] == fs + [c] + front;
      assert (fs + gs)[..|fs + gs| - 1] == fs + front;
    }
  }

  // ----- replies -----

  /** The frames an endpoint enqueues in answer to frames it handles: while OPEN, one PONG with
      the same payload per PING; a CLOSE for the first CLOSE or unknown opcode; then nothing. */
  ghost function Replies(state: ReadyState, useMask: bool, fs: seq<Frame>): seq<Frame> {
    if Left(state) || fs == [] then []
    else if fs[0].opcode == PING then
      [DataFrame(PONG, fs[0].payload, useMask)] + Replies(state, useMask, fs[1..])
    else if IsData(fs[0]) || fs[0].opcode == PONG then Replies(state, useMask, fs[1..])
    else [CLOSE_FRAME]
  }

  // ----- dispatching a list of frames -----

  ghost function HandleAll(e: Endpoint, fs: seq<Frame>): Endpoint
    decreases |fs|
  {
    if fs == [] then e else HandleAll(Handle(e, fs[0]), fs[1..])
  }

  lemma HandleKeepsInput(e: Endpoint, f: Frame, buf: Bytes)
    ensures Handle(e.(rxbuf := buf), f) == Handle(e, f).(rxbuf := buf)
    ensures Handle(e, f).received == e.received && Handle(e, f).sent == e.sent
    ensures Handle(e, f).rxbuf == e.rxbuf && Handle(e, f).useMask == e.useMask
  {
    hide Encode;
  }

  /** Dispatching the encoding of any list of frames, followed by bytes that do not complete
      another one, handles exactly those frames in order and leaves exactly those bytes. */
  lemma {:induction false} DispatchFrames(e: Endpoint, fs: seq<Frame>, rest: Bytes)
    requires AreFrames(fs) && e.rxbuf == EncodeAll(fs) + rest
    requires !Parse(rest).Complete?
    ensures Dispatch(e) == HandleAll(e, fs).(rxbuf := rest)
    decreases |fs|
  {
    hide Encode, IsFrame, Parse, Handle;
    if fs == [] {
      assert e.rxbuf == rest;
      assert e == e.(rxbuf := rest);
    } else {
      EncodeAllFirst(fs);
      var tail := EncodeAll(fs[1..]) + rest;
      assert e.rxbuf == Encode(fs[0]) + tail;
      ParseEncode(fs[0], tail);
      var e' := Consume(e);
      assert e' == Handle(e, fs[0]).(rxbuf := tail);
      DispatchFrames(e', fs[1..], rest);
      HandleAllKeepsInput(Handle(e, fs[0]), fs[1..], tail);
    }
  }

  lemma {:induction false} HandleAllKeepsInput(e: Endpoint, fs: seq<Frame>, buf: Bytes)
    ensures HandleAll(e.(rxbuf := buf), fs) == HandleAll(e, fs).(rxbuf := buf)
    decreases |fs|
  {
    hide Handle;
    if fs != [] {
      HandleKeepsInput(e, fs[0], buf);
      HandleAllKeepsInput(Handle(e, fs[0]), fs[1..], buf);
    }
  }

  /** The callbacks and the unfinished message are those of the frames handled so far. */
  ghost predicate Assembled(handled: seq<Frame>, calls: seq<Bytes>, pending: Bytes) {
    Assembly(calls, pending) == Reassemble(handled)
  }

  ghost function After(state: ReadyState, replies: seq<Frame>): ReadyState {
    if CLOSE_FRAME in replies then CLOSING else state
  }

  lemma AssembledMore(e: Endpoint, f: Frame)
    requires Assembled(e.handled, e.calls, e.receivedData)
    ensures var d := if IsData(f) then Deliver(e, f) else e;
            Assembled(e.handled + [f], d.calls, d.receivedData)
  {
    assert (e.handled + [f])[..|e.handled|] == e.handled;
  }

  lemma HandleOne(e: Endpoint, f: Frame)
    requires Assembled(e.handled, e.calls, e.receivedData)
    ensures var h := Handle(e, f);
            && Assembled(h.handled, h.calls, h.receivedData)
            && h.handled == e.handled + [f]
            && h.useMask == e.useMask
  {
    AssembledMore(e, f);
    hide Enqueue, Assembled;
    ReplyKeepsInput(e.(handled := e.handled + [f]), DataFrame(PONG, f.payload, e.useMask));
  }

  lemma ReplyKeepsInput(e: Endpoint, f: Frame)
    ensures Enqueue(e, f) == e.(txbuf := Enqueue(e, f).txbuf, accepted := e.accepted + [f])
    ensures CloseIt(e).handled == e.handled && CloseIt(e).calls == e.calls
    ensures CloseIt(e).receivedData == e.receivedData && CloseIt(e).useMask == e.useMask
  {
    hide Encode;
  }

  lemma ReplyOne(e: Endpoint, f: Frame)
    ensures var e', now := Handle(e, f), Replies(e.readyState, e.useMask, [f]);
            && e'.accepted == e.accepted + now
            && e'.readyState == After(e.readyState, now)
  {
    hide Encode;
    assert [f][1..] == [];
    assert Replies(e.readyState, e.useMask, [f][1..]) == [];
    assert DataFrame(PONG, f.payload, e.useMask) != CLOSE_FRAME;
  }

  lemma NoReplies(state: ReadyState, useMask: bool)
    ensures Replies(state, useMask, []) == []
  {
  }

  lemma RepliesFirst(state: ReadyState, useMask: bool, fs: seq<Frame>)
    requires fs != []
    ensures var now := Replies(state, useMask, [fs[0]]);
            Replies(state, useMask, fs)
            == now + Replies(After(state, now), useMask, fs[1..])
  {
    assert [fs[0]][1..] == [];
    assert DataFrame(PONG, fs[0].payload, useMask) != CLOSE_FRAME;
  }

  /** What handling a list of frames does to messages, replies and ready state. */
  lemma {:induction false} HandleAllEffect(e: Endpoint, fs: seq<Frame>)
    requires Assembled(e.handled, e.calls, e.receivedData)
    ensures var e', replies := HandleAll(e, fs), Replies(e.readyState, e.useMask, fs);
            && Assembled(e'.handled, e'.calls, e'.receivedData)
            && e'.handled == e.handled + fs
            && e'.accepted == e.accepted + replies
            && e'.readyState == After(e.readyState, replies)
    decreases |fs|
  {
    hide Handle, Assembled, Replies;
    if fs == [] {
      assert Replies(e.readyState, e.useMask, fs) == [] by { NoReplies(e.readyState, e.useMask); }
      assert e.handled + fs == e.handled;
    } else {
      var e' := Handle(e, fs[0]);
      HandleOne(e, fs[0]);
      ReplyOne(e, fs[0]);
      RepliesFirst(e.readyState, e.useMask, fs);
      HandleAllEffect(e', fs[1..]);
      assert e.handled + [fs[0]] + fs[1..] == e.handled + fs;
    }
  }

  /** The receive loop meets its specification: on a connection that has handled nothing yet,
      any list of frames makes exactly the callbacks of its reassembly, keeps the unfinished
      message and the undecodable rest, and enqueues exactly the prescribed replies. */
  lemma DispatchMeetsSpecification(useMask: bool, fs: seq<Frame>, rest: Bytes)
    requires AreFrames(fs) && !Parse(rest).Complete?
    ensures var e := Dispatch(Receive(Fresh(useMask), EncodeAll(fs) + rest));
            && Assembly(e.calls, e.receivedData) == Reassemble(fs)
            && e.rxbuf == rest
            && e.accepted == Replies(OPEN, useMask, fs)
            && e.readyState == After(OPEN, Replies(OPEN, useMask, fs))
  {
    hide IsFrame, Encode, Parse, Handle;
    var e := Receive(Fresh(useMask), EncodeAll(fs) + rest);
    assert e.rxbuf == EncodeAll(fs) + rest;
    DispatchFrames(e, fs, rest);
    HandleAllEffect(e, fs);
    assert e.handled + fs == fs;
    assert e.accepted + Replies(OPEN, useMask, fs) == Replies(OPEN, useMask, fs);
  }

  // ----- chunking independence -----

  lemma DispatchKeepsSize(e: Endpoint)
    ensures |Dispatch(e).rxbuf| <= |e.rxbuf| && !Parse(Dispatch(e).rxbuf).Complete?
    decreases |e.rxbuf|
  {
    hide Handle, Parse;
    if Parse(e.rxbuf).Complete? {
      DispatchKeepsSize(Consume(e));
    }
  }

  lemma {:induction false} DispatchThenReceive(e: Endpoint, chunk: Bytes)
    ensures Dispatch(Receive(Dispatch(e), chunk)) == Dispatch(Receive(e, chunk))
    decreases |e.rxbuf|
  {
    hide Handle, Parse;
    if Parse(e.rxbuf).Complete? {
      ParseSound(e.rxbuf);
      ParseExtend(e.rxbuf, chunk);
      var e' := Receive(e, chunk);
      ConsumeReceive(e, chunk);
      DispatchThenReceive(Consume(e), chunk);
    }
  }

  lemma ConsumeReceive(e: Endpoint, chunk: Bytes)
    requires Parse(e.rxbuf).Complete?
    requires Parse(e.rxbuf + chunk) == Parse(e.rxbuf)
    ensures Consume(Receive(e, chunk)) == Receive(Consume(e), chunk)
  {
    hide Parse, Encode, IsFrame;
    ParseSound(e.rxbuf);
    var Complete(f, size) := Parse(e.rxbuf);
    assert (e.rxbuf + chunk)[size..] == e.rxbuf[size..] + chunk;
  }

  /** Two chunks dispatched one after the other have the effect of both dispatched at once. */
  lemma ChunkingIndependence(e: Endpoint, a: Bytes, b: Bytes)
    ensures Dispatch(Receive(Dispatch(Receive(e, a)), b)) == Dispatch(Receive(e, a + b))
  {
    hide Dispatch, Parse;
    DispatchThenReceive(Receive(e, a), b);
    assert e.rxbuf + a + b == e.rxbuf + (a + b);
    assert e.received + a + b == e.received + (a + b);
    assert Receive(Receive(e, a), b) == Receive(e, a + b);
  }

  ghost function DispatchChunks(e: Endpoint, chunks: seq<Bytes>): Endpoint
    decreases |chunks|
  {
    if chunks == [] then e
    else Dispatch(Receive(DispatchChunks(e, chunks[..|chunks| - 1]), chunks[|chunks| - 1]))
  }

  /** However a stream is cut into chunks, dispatching after each one ends in the same state. */
  lemma {:induction false} AnyChunking(e: Endpoint, chunks: seq<Bytes>)
    requires chunks != []
    ensures DispatchChunks(e, chunks) == Dispatch(Receive(e, Join(chunks)))
    decreases |chunks|
  {
    hide Dispatch, Receive;
    var last := |chunks| - 1;
    var front := chunks[..last];
    if front == [] {
      assert Join(chunks) == chunks[last];
      assert DispatchChunks(e, front) == e;
    } else {
      AnyChunking(e, front);
      ChunkingIndependence(e, Join(front), chunks[last]);
    }
  }
}
