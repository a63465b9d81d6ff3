/** The imperative form of `_RealWebSocket` (src/network/easywsclient.cpp). Every method is proved
    to change the object as the state machine of module `Endpoints` says. */
module RealWebSockets {
  import opened Options
  import opened Frames
  import opened Endpoints
  import opened EndpointRuns

  // ----- numbers on the wire -----

  /** One octet of a number: `(n >> 8k) & 0xff` with `unit` standing for 2 to the 8k. */
  function Octet(n: nat, unit: nat): byte
    requires unit > 0
  {
    AsByte(n / unit % 256)
  }

  lemma MultipleBound(x: int, d: nat)
    ensures x >= 1 ==> x * d >= d
    ensures x <= -1 ==> x * d + d <= 0
  {
  }

  lemma QuotientUnique(d: nat, q: nat, r: nat, q': nat, r': nat)
    requires r < d && r' < d && q * d + r == q' * d + r'
    ensures q == q'
  {
    MultipleBound(q - q', d);
    assert (q - q') * d == q * d - q' * d;
  }

  lemma QuotientOf(n: nat, d: nat, q: nat, r: nat)
    requires r < d && n == q * d + r
    ensures n / d == q
  {
    QuotientUnique(d, q, r, n / d, n % d);
  }

  lemma DivideTwice(n: nat, p: nat)
    requires p >= 1
    ensures n / 256 / p == n / (256 * p)
  {
    var m := n / 256;
    var q, r := m / p, m % p;
    assert m == q * p + r;
    var rest := 256 * r + n % 256;
    assert n == q * (256 * p) + rest by { ScaleUp(p, q, r); }
    QuotientOf(n, 256 * p, q, rest);
  }

  lemma ScaleUp(p: nat, q: nat, r: nat)
    ensures 256 * (q * p + r) == q * (256 * p) + 256 * r
  {
  }

  lemma {:induction false} OctetsOf(n: nat, width: nat, k: nat)
    requires k < width
    ensures BigEndian(n, width)[k] == Octet(n, Pow256(width - 1 - k))
    decreases width
  {
    if k == width - 1 {
      assert n / Pow256(0) == n;
    } else {
      OctetsOf(n / 256, width - 1, k);
      DivideTwice(n, Pow256(width - 2 - k));
    }
  }

  lemma PowerValues()
    ensures Pow256(0) == 1 && Pow256(1) == 0x100 && Pow256(2) == 0x1_0000 && Pow256(3) == 0x100_0000
    ensures Pow256(4) == 0x1_0000_0000 && Pow256(5) == 0x100_0000_0000 && Pow256(6) == 0x1_0000_0000_0000
    ensures Pow256(7) == 0x100_0000_0000_0000
  {
  }

  lemma OctetsOfTwo(n: nat)
    ensures BigEndian(n, 2) == [Octet(n, 0x100), Octet(n, 1)]
  {
    PowerValues();
    forall k | 0 <= k < 2 ensures BigEndian(n, 2)[k] == Octet(n, Pow256(1 - k)) {
      OctetsOf(n, 2, k);
    }
  }

  lemma OctetsOfEight(n: nat)
    ensures BigEndian(n, 8) == [
      Octet(n, 0x100_0000_0000_0000), Octet(n, 0x1_0000_0000_0000), Octet(n, 0x100_0000_0000),
      Octet(n, 0x1_0000_0000), Octet(n, 0x100_0000), Octet(n, 0x1_0000), Octet(n, 0x100), Octet(n, 1)]
  {
    PowerValues();
    hide Octet, BigEndian, Pow256;
    var b := BigEndian(n, 8);
    forall k | 0 <= k < 8 ensures b[k] == Octet(n, Pow256(7 - k)) {
      OctetsOf(n, 8, k);
    }
    assert b == [b[0], b[1], b[2], b[3], b[4], b[5], b[6], b[7]];
  }

  lemma AppendOctet(high: bv64, low: byte)
    requires high as nat < 0x100_0000_0000_0000
    ensures ((high << 8) | (low as bv64)) as nat == (high as nat) * 256 + (low as nat)
  {
  }

  function Horner(b: Bytes): bv64 {
    if b == [] then 0 else (Horner(b[..|b| - 1]) << 8) | (b[|b| - 1] as bv64)
  }

  lemma HornerStep(b: Bytes, k: nat)
    requires k < |b|
    ensures Horner(b[..k + 1]) == (Horner(b[..k]) << 8) | (b[k] as bv64)
  {
    assert b[..k + 1][..k] == b[..k];
  }

  lemma HighBits(b: Bytes)
    requires |b| <= 7
    ensures FromBigEndian(b) < 0x100_0000_0000_0000
  {
    FromBigEndianBound(b);
    PowerValues();
  }

  /** Shifting and or-ing octets into a 64-bit word yields the number they denote. */
  lemma {:induction false} HornerIsBigEndian(b: Bytes)
    requires |b| <= 8
    ensures Horner(b) as nat == FromBigEndian(b)
  {
    if b != [] {
      var front := b[..|b| - 1];
      var k := |b| - 1;
      HornerIsBigEndian(front);
      HighBits(front);
      HornerStep(b, k);
      AppendOctet(Horner(front), b[k]);
      assert b[..k + 1] == b;
      assert FromBigEndian(b) == FromBigEndian(front) * 256 + b[k] as nat;
    }
  }

  /** The decoder's word for the 64-bit length form, octet by octet as the original builds it. */
  function Word64(b: Bytes): bv64
    requires |b| == 8
  {
    ((b[0] as bv64) << 56) | ((b[1] as bv64) << 48) | ((b[2] as bv64) << 40) | ((b[3] as bv64) << 32)
    | ((b[4] as bv64) << 24) | ((b[5] as bv64) << 16) | ((b[6] as bv64) << 8) | (b[7] as bv64)
  }

  lemma ShiftedTogether(b0: bv64, b1: bv64, b2: bv64, b3: bv64, b4: bv64, b5: bv64, b6: bv64, b7: bv64)
    ensures ((((((((((((((b0 << 8) | b1) << 8) | b2) << 8) | b3) << 8) | b4) << 8) | b5) << 8) | b6) << 8) | b7)
         == (b0 << 56) | (b1 << 48) | (b2 << 40) | (b3 << 32) | (b4 << 24) | (b5 << 16) | (b6 << 8) | b7
  {
  }

  lemma Word64IsBigEndian(b: Bytes)
    requires |b| == 8
    ensures Word64(b) as nat == FromBigEndian(b)
  {
    HornerIsBigEndian(b);
    HornerOfEight(b);
    hide Horner, FromBigEndian, Word64;
  }

  lemma HornerOfEight(b: Bytes)
    requires |b| == 8
    ensures Word64(b) == Horner(b)
  {
    assert b[..0] == [] && b[..8] == b;
    assert Horner(b[..0]) == 0;
    hide Horner;
    HornerStep(b, 0);
    HornerStep(b, 1);
    HornerStep(b, 2);
    HornerStep(b, 3);
    HornerStep(b, 4);
    HornerStep(b, 5);
    HornerStep(b, 6);
    HornerStep(b, 7);
    ShiftedTogether(b[0] as bv64, b[1] as bv64, b[2] as bv64, b[3] as bv64,
                    b[4] as bv64, b[5] as bv64, b[6] as bv64, b[7] as bv64);
  }

  // ----- sending -----

  /** The in-place masking loop: bytes outside the range are left as they were. */
  method XorRange(buf: Bytes, offset: nat, n: nat, key: Key) returns (r: Bytes)
    requires offset + n <= |buf|
    ensures r == buf[..offset] + Masked(buf[offset..offset + n], key) + buf[offset + n..]
  {
    r := buf;
    var i := 0;
    while i != n
      invariant 0 <= i <= n && |r| == |buf|
      invariant forall j :: 0 <= j < |buf| ==>
        r[j] == if offset <= j < offset + i then buf[j] ^ key[(j - offset) % 4] else buf[j]
    {
      r := r[offset + i := r[offset + i] ^ key[i % 4]];
      i := i + 1;
    }
  }

  lemma LengthCode(size: nat)
    ensures ShortestForm(size) == if size < 126 then Short else if size < 65536 then Medium else Long
    ensures Code(ShortestForm(size), size) == if size < 126 then AsByte(size) else if size < 65536 then 126 else 127
    ensures BigEndian(size, 0) == []
  {
    hide AsByte;
    assert size < 126 ==> size % 128 == size;
  }

  /** The first part of the header: opcode, length code and length octets. */
  method BuildLength(op: byte, size: nat, useMask: bool) returns (header: Bytes, i: nat)
    ensures |header| == HeaderSize(ShortestForm(size), useMask) && i == 2 + Width(ShortestForm(size))
    ensures header[..i] == [0x80 | op, Code(ShortestForm(size), size) | MaskBit(useMask)]
                           + BigEndian(size, Width(ShortestForm(size)))
  {
    LengthCode(size);
    hide Octet, BigEndian, Code, ShortestForm;
    var bit: byte := if useMask then 0x80 else 0;
    var total := 2 + (if size >= 126 then 2 else 0) + (if size >= 65536 then 6 else 0) + (if useMask then 4 else 0);
    header := seq(total, _ => 0);
    header := header[0 := 0x80 | op];
    if size < 126 {
      header := header[1 := AsByte(size) | bit];
      i := 2;
    } else if size < 65536 {
      header := header[1 := 126 | bit][2 := Octet(size, 0x100)][3 := Octet(size, 1)];
      i := 4;
      OctetsOfTwo(size);
    } else {
      header := header[1 := 127 | bit];
      header := PutEight(header, size);
      i := 10;
    }
  }

  /** The eight assignments of the 64-bit length form. */
  method PutEight(header: Bytes, size: nat) returns (h: Bytes)
    requires |header| >= 10
    ensures |h| == |header| && h[..10] == header[..2] + BigEndian(size, 8)
  {
    OctetsOfEight(size);
    hide Octet, BigEndian;
    h := header[2 := Octet(size, 0x100_0000_0000_0000)][3 := Octet(size, 0x1_0000_0000_0000)];
    h := h[4 := Octet(size, 0x100_0000_0000)][5 := Octet(size, 0x1_0000_0000)];
    h := h[6 := Octet(size, 0x100_0000)][7 := Octet(size, 0x1_0000)];
    h := h[8 := Octet(size, 0x100)][9 := Octet(size, 1)];
  }

  /** The header `sendData` assembles is the one of the frame it sends. */
  method BuildHeader(op: byte, message: Bytes, useMask: bool) returns (header: Bytes)
    ensures header == Header(DataFrame(op, message, useMask))
  {
    ghost var f := DataFrame(op, message, useMask);
    assert FirstByte(f) == 0x80 | op;
    hide BigEndian, FirstByte, Code, MaskBit, ShortestForm;
    var i;
    header, i := BuildLength(op, |message|, useMask);
    ghost var head := header[..i];
    if useMask {
      header := header[i := MASKING_KEY[0]][i + 1 := MASKING_KEY[1]][i + 2 := MASKING_KEY[2]][i + 3 := MASKING_KEY[3]];
    }
    assert header == head + KeyBytes(f.key);
  }

  lemma EnqueuedBytes(before: Bytes, header: Bytes, message: Bytes, key: Key)
    ensures var tx, o := before + header + message, |before + header|;
            && tx == before + (header + message)
            && tx[..o] + Masked(tx[o..o + |message|], key) + tx[o + |message|..]
               == before + (header + Masked(message, key))
  {
    hide Masked;
    var tx, o := before + header + message, |before + header|;
    assert tx[o..o + |message|] == message && tx[..o] == before + header && tx[o + |message|..] == [];
  }

  lemma EncodedParts(op: byte, message: Bytes, useMask: bool)
    ensures var f := DataFrame(op, message, useMask);
            Encode(f) == Header(f) + if useMask then Masked(message, MASKING_KEY) else message
  {
  }

  /** The frame is put behind whatever waits to be sent, and then masked where it lies. */
  method AppendFrame(tx: Bytes, op: byte, message: Bytes, useMask: bool) returns (r: Bytes)
    ensures r == tx + Encode(DataFrame(op, message, useMask))
  {
    var header := BuildHeader(op, message, useMask);
    EncodedParts(op, message, useMask);
    hide Header, Encode, Masked, DataFrame;
    EnqueuedBytes(tx, header, message, MASKING_KEY);
    r := tx + header;
    r := r + message;
    if useMask {
      var messageOffset := |r| - |message|;
      r := XorRange(r, messageOffset, |message|, MASKING_KEY);
    }
  }

  // ----- receiving -----

  datatype WsHeader = WsHeader(headerSize: nat, fin: bool, opcode: byte, mask: bool, n: nat, key: Key)

  /** The header fields the receive loop reads before it knows the frame is complete. */
  ghost predicate DescribesHead(ws: WsHeader, data: Bytes) {
    && |data| >= 2
    && var form := FormOf(data[1] & 0x7f);
    && ws.headerSize == HeaderSize(form, ws.mask) <= |data|
    && ws.fin == (data[0] & 0x80 == 0x80)
    && ws.opcode == data[0] & 0x0f
    && ws.mask == (data[1] & 0x80 == 0x80)
    && ws.n == PayloadLength(data)
    && ws.key == if ws.mask then data[ws.headerSize - 4..ws.headerSize] else ZERO_KEY
  }

  /** The payload length, or-ed together octet by octet; `i` is where the key would start. */
  method ReadLength(data: Bytes) returns (n: nat, i: nat)
    requires |data| >= 2 && |data| >= 2 + Width(FormOf(data[1] & 0x7f))
    ensures n == PayloadLength(data) && i == 2 + Width(FormOf(data[1] & 0x7f))
  {
    hide FromBigEndian;
    var n0 := data[1] & 0x7f;
    if n0 == 126 {
      var word := ((data[2] as bv64) << 8) | (data[3] as bv64);
      Word16IsBigEndian(data[2..4]);
      n, i := word as nat, 4;
    } else if n0 == 127 {
      var word := ((data[2] as bv64) << 56) | ((data[3] as bv64) << 48) | ((data[4] as bv64) << 40)
        | ((data[5] as bv64) << 32) | ((data[6] as bv64) << 24) | ((data[7] as bv64) << 16)
        | ((data[8] as bv64) << 8) | (data[9] as bv64);
      Word64IsBigEndian(data[2..10]);
      n, i := word as nat, 10;
    } else {
      n, i := n0 as nat, 2;
    }
  }

  /** Peeks at the head of the buffer; nothing is consumed. */
  method ReadHeader(data: Bytes) returns (r: Option<WsHeader>)
    ensures r.None? ==> Parse(data).Incomplete?
    ensures r.Some? ==> DescribesHead(r.value, data)
  {
    if |data| < 2 {
      return None;
    }
    var fin := data[0] & 0x80 == 0x80;
    var opcode := data[0] & 0x0f;
    var mask := data[1] & 0x80 == 0x80;
    var n0 := data[1] & 0x7f;
    var headerSize := 2 + (if n0 == 126 then 2 else 0) + (if n0 == 127 then 8 else 0) + (if mask then 4 else 0);
    if |data| < headerSize {
      return None;
    }
    hide PayloadLength, Parse;
    var n, i := ReadLength(data);
    var key: Key := if mask then [data[i], data[i + 1], data[i + 2], data[i + 3]] else [0, 0, 0, 0];
    assert mask ==> key == data[headerSize - 4..headerSize];
    r := Some(WsHeader(headerSize, fin, opcode, mask, n, key));
  }

  lemma Word16IsBigEndian(b: Bytes)
    requires |b| == 2
    ensures (((b[0] as bv64) << 8) | (b[1] as bv64)) as nat == FromBigEndian(b)
  {
    assert b[..0] == [] && b[..1][..0] == [] && b[..2] == b;
    HornerStep(b, 0);
    HornerStep(b, 1);
    HornerIsBigEndian(b);
  }

  /** The verdict of `Parse` in terms of the header fields. */
  lemma HeadVerdict(ws: WsHeader, data: Bytes)
    requires DescribesHead(ws, data)
    ensures var size := ws.headerSize + ws.n;
            && (Parse(data).Overrun? <==> size >= WORD)
            && (size < WORD && |data| < size ==> Parse(data).Incomplete?)
            && (size < WORD && |data| >= size ==>
                  var payload := data[ws.headerSize..size];
                  && Parse(data).Complete? && Parse(data).size == size
                  && Parse(data).frame.fin == ws.fin && Parse(data).frame.opcode == ws.opcode
                  && Parse(data).frame.payload == if ws.mask then Masked(payload, ws.key) else payload)
  {
    hide PayloadLength, Masked;
  }

  // ----- polling -----

  lemma NothingPushed(before: seq<Step>)
    ensures before + PushSteps([]) == before
  {
  }

  lemma PushOne(start: Endpoint, before: seq<Step>, sends: seq<nat>, i: nat)
    requires i < |sends| && IsRun(start, before + PushSteps(sends[..i]))
    requires Enabled(Run(start, before + PushSteps(sends[..i])), Push(sends[i]))
    ensures IsRun(start, before + PushSteps(sends[..i + 1]))
    ensures Run(start, before + PushSteps(sends[..i + 1])) ==
            Apply(Run(start, before + PushSteps(sends[..i])), Push(sends[i]))
    ensures Sum(sends[..i + 1]) == Sum(sends[..i]) + sends[i]
  {
    hide IsRun, Run, Apply;
    RunAppend(start, before + PushSteps(sends[..i]), Push(sends[i]));
    assert sends[..i + 1][..i] == sends[..i];
    assert before + PushSteps(sends[..i]) + [Push(sends[i])] == before + PushSteps(sends[..i + 1]);
  }

  lemma PushedThenDropped(start: Endpoint, before: seq<Step>, sends: seq<nat>, waiting: nat)
    requires IsRun(start, before + PushSteps(sends)) && Sum(sends) < waiting
    requires Run(start, before + PushSteps(sends)).readyState != CLOSED
    ensures var steps := before + Pushed(sends, true, waiting);
            IsRun(start, steps) && Run(start, steps) == Disconnect(Run(start, before + PushSteps(sends)))
  {
    hide IsRun, Run;
    RunAppend(start, before + PushSteps(sends), Drop);
    assert before + PushSteps(sends) + [Drop] == before + (PushSteps(sends) + [Drop]);
  }

  lemma PushedAll(before: seq<Step>, sends: seq<nat>, sendFails: bool, waiting: nat)
    ensures !(sendFails && Sum(sends) < waiting) ==> before + Pushed(sends, sendFails, waiting) == before + PushSteps(sends)
  {
    assert PushSteps(sends) + [] == PushSteps(sends);
  }

  lemma NoSteps(e: Endpoint)
    ensures IsRun(e, []) && Run(e, []) == e
  {
  }

  lemma CloseKeepsInput(e: Endpoint)
    ensures CloseIt(e).rxbuf == e.rxbuf
  {
    hide Encode;
  }

  class RealWebSocket {
    var rxbuf: Bytes
    var txbuf: Bytes
    var receivedData: Bytes
    var readyState: ReadyState
    const useMask: bool

    ghost var received: Bytes
    ghost var sent: Bytes
    ghost var handled: seq<Frame>
    ghost var accepted: seq<Frame>
    ghost var calls: seq<Bytes>

    ghost function State(): Endpoint
      reads this
    {
      Endpoint(rxbuf, txbuf, receivedData, readyState, useMask, received, sent, handled, accepted, calls)
    }

    constructor (useMask: bool)
      ensures State() == Fresh(useMask)
    {
      this.useMask := useMask;
      rxbuf, txbuf, receivedData, readyState := [], [], [], OPEN;
      received, sent, handled, accepted, calls := [], [], [], [], [];
    }

    method SendData(op: byte, message: Bytes)
      modifies this
      ensures State() == Endpoints.SendData(old(State()), op, message)
    {
      if readyState == CLOSING || readyState == CLOSED {
        return;
      }
      txbuf := AppendFrame(txbuf, op, message, useMask);
      accepted := accepted + [DataFrame(op, message, useMask)];
    }

    method Close()
      modifies this
      ensures State() == CloseIt(old(State()))
    {
      if readyState == CLOSING || readyState == CLOSED {
        return;
      }
      readyState := CLOSING;
      var closeFrame: Bytes := [0x88, 0x80, 0x00, 0x00, 0x00, 0x00];
      txbuf := txbuf + closeFrame;
      CloseFrameBytes();
      accepted := accepted + [CLOSE_FRAME];
    }

    method SendPing()
      modifies this
      ensures State() == Endpoints.SendData(old(State()), PING, [])
    {
      SendData(PING, []);
    }

    method Send(message: Bytes)
      modifies this
      ensures State() == Endpoints.SendData(old(State()), TEXT_FRAME, message)
    {
      SendData(TEXT_FRAME, message);
    }

    method SendBinary(message: Bytes)
      modifies this
      ensures State() == Endpoints.SendData(old(State()), BINARY_FRAME, message)
    {
      SendData(BINARY_FRAME, message);
    }

    /** Unmasks one payload where it lies in the receive buffer. */
    method UnmaskInPlace(ws: WsHeader)
      requires ws.headerSize + ws.n <= |rxbuf|
      modifies this`rxbuf
      ensures |rxbuf| == |old(rxbuf)|
      ensures rxbuf[ws.headerSize + ws.n..] == old(rxbuf[ws.headerSize + ws.n..])
      ensures var payload := old(rxbuf[ws.headerSize..ws.headerSize + ws.n]);
              rxbuf[ws.headerSize..ws.headerSize + ws.n] == if ws.mask then Masked(payload, ws.key) else payload
    {
      if ws.mask {
        rxbuf := XorRange(rxbuf, ws.headerSize, ws.n, ws.key);
      }
    }

    ghost predicate Holds(ws: WsHeader, f: Frame)
      reads this
    {
      && ws.headerSize + ws.n <= |rxbuf|
      && ws.fin == f.fin
      && var payload := rxbuf[ws.headerSize..ws.headerSize + ws.n];
      && f.payload == if ws.mask then Masked(payload, ws.key) else payload
    }

    /** Text, binary and continuation frames feed the message under construction. */
    method HandleData(ws: WsHeader, ghost f: Frame)
      requires Holds(ws, f)
      modifies this
      ensures State() == Deliver(old(State()), f).(rxbuf := rxbuf)
      ensures |rxbuf| == old(|rxbuf|) && rxbuf[ws.headerSize + ws.n..] == old(rxbuf[ws.headerSize + ws.n..])
    {
      hide Masked;
      UnmaskInPlace(ws);
      receivedData := receivedData + rxbuf[ws.headerSize..ws.headerSize + ws.n];
      if ws.fin {
        calls := calls + [receivedData];
        receivedData := [];
      }
    }

    /** A PING is answered with a PONG of the same payload. */
    method HandlePing(ws: WsHeader, ghost f: Frame)
      requires Holds(ws, f)
      modifies this
      ensures State() == Endpoints.SendData(old(State()), PONG, f.payload).(rxbuf := rxbuf)
      ensures |rxbuf| == old(|rxbuf|) && rxbuf[ws.headerSize + ws.n..] == old(rxbuf[ws.headerSize + ws.n..])
    {
      hide Masked, Encode;
      UnmaskInPlace(ws);
      var data := rxbuf[ws.headerSize..ws.headerSize + ws.n];
      SendData(PONG, data);
    }

    /** What the loop does with one complete frame, up to and including its removal. */
    method HandleFrame(ws: WsHeader, ghost f: Frame)
      requires DescribesHead(ws, rxbuf) && Parse(rxbuf) == Complete(f, ws.headerSize + ws.n)
      modifies this
      ensures State() == Consume(old(State())) && |rxbuf| < old(|rxbuf|)
    {
      ParseSound(rxbuf);
      HeadVerdict(ws, rxbuf);
      hide Parse, DescribesHead, Encode, IsFrame, Masked, Endpoints.SendData, CloseIt, Deliver;
      ghost var start := State();
      handled := handled + [f];
      assert Holds(ws, f);
      ghost var e := State();
      assert f.opcode == ws.opcode;
      if ws.opcode == TEXT_FRAME || ws.opcode == BINARY_FRAME || ws.opcode == CONTINUATION {
        HandleData(ws, f);
      } else if ws.opcode == PING {
        HandlePing(ws, f);
      } else if ws.opcode == PONG {
      } else if ws.opcode == CLOSE {
        Close();
        CloseKeepsInput(e);
      } else {
        Close();
        CloseKeepsInput(e);
      }
      assert State() == Handle(start, f).(rxbuf := rxbuf);
      rxbuf := rxbuf[ws.headerSize + ws.n..];
    }

    /** The receive loop. `defined` is false exactly when it meets a header whose size wraps; the
        original then reads and writes outside the buffer, the model stops. */
    method DispatchBinary() returns (defined: bool)
      modifies this
      ensures State() == Dispatch(old(State()))
      ensures defined <==> !Parse(rxbuf).Overrun?
    {
      hide Parse, DescribesHead, Consume;
      while true
        invariant Dispatch(State()) == Dispatch(old(State()))
        decreases |rxbuf|
      {
        var r := ReadHeader(rxbuf);
        if r.None? {
          return true;
        }
        var ws := r.value;
        HeadVerdict(ws, rxbuf);
        if ws.headerSize + ws.n >= WORD {
          return false;
        }
        if |rxbuf| < ws.headerSize + ws.n {
          return true;
        }
        HandleFrame(ws, Parse(rxbuf).frame);
      }
    }

    /** The first loop of `poll`: the socket yields `recvs`, then has nothing more or fails. */
    method ReceiveLoop(recvs: seq<Bytes>, recvFails: bool)
      requires RecvsFit(recvs, |rxbuf|) && readyState != CLOSED
      modifies this`rxbuf, this`received, this`readyState
      ensures readyState == if recvFails then CLOSED else old(readyState)
      ensures IsRun(old(State()), Received(recvs, recvFails))
      ensures State() == Run(old(State()), Received(recvs, recvFails))
    {
      hide IsRun, Run, Dispatch, Endpoints.SendData, CloseIt;
      ghost var start, steps := State(), [];
      NoSteps(start);
      var i := 0;
      while i < |recvs|
        invariant 0 <= i <= |recvs| && steps == RecvSteps(recvs[..i])
        invariant IsRun(start, steps) && State() == Run(start, steps)
        invariant RecvsFit(recvs[i..], |rxbuf|) && readyState == old(readyState)
      {
        RunAppend(start, steps, Recv(recvs[i]));
        assert recvs[i..][0] == recvs[i] && recvs[i..][1..] == recvs[i + 1..];
        assert recvs[..i + 1][..i] == recvs[..i];
        rxbuf := rxbuf + recvs[i];
        received := received + recvs[i];
        steps := steps + [Recv(recvs[i])];
        i := i + 1;
      }
      assert recvs[..i] == recvs;
      if recvFails {
        RunAppend(start, steps, Drop);
        readyState := CLOSED;
      }
      assert steps + [] == steps;
    }

    /** The second loop: the socket takes `sends[k]` bytes at the k-th send, then blocks or fails. A
        closed socket takes nothing. */
    method SendLoop(sends: seq<nat>, sendFails: bool, ghost start: Endpoint, ghost before: seq<Step>)
      requires SendsFit(sends, |txbuf|) && (readyState == CLOSED ==> sends == [])
      requires IsRun(start, before) && State() == Run(start, before)
      modifies this`txbuf, this`sent, this`readyState
      ensures readyState == if sendFails && Sum(sends) < old(|txbuf|) then CLOSED else old(readyState)
      ensures var steps := before + Pushed(sends, sendFails && old(readyState) != CLOSED, old(|txbuf|));
              IsRun(start, steps) && State() == Run(start, steps)
    {
      hide IsRun, Run, Dispatch, Endpoints.SendData, CloseIt, PushSteps;
      ghost var waiting := |txbuf|;
      NothingPushed(before);
      var i := 0;
      while txbuf != []
        invariant 0 <= i <= |sends|
        invariant IsRun(start, before + PushSteps(sends[..i])) && State() == Run(start, before + PushSteps(sends[..i]))
        invariant SendsFit(sends[i..], |txbuf|) && |txbuf| + Sum(sends[..i]) == waiting
        invariant readyState == old(readyState)
        decreases |txbuf|
      {
        if i == |sends| {
          break;
        }
        assert sends[i..][0] == sends[i] && sends[i..][1..] == sends[i + 1..];
        PushOne(start, before, sends, i);
        sent := sent + txbuf[..sends[i]];
        txbuf := txbuf[sends[i]..];
        i := i + 1;
      }
      assert sends[..i] == sends;
      if txbuf != [] && sendFails {
        if readyState != CLOSED {
          PushedThenDropped(start, before, sends, waiting);
        }
        readyState := CLOSED;
      }
      PushedAll(before, sends, sendFails && old(readyState) != CLOSED, waiting);
    }

    /** One poll of a connection, with whatever the socket does during it. */
    method Poll(recvs: seq<Bytes>, recvFails: bool, sends: seq<nat>, sendFails: bool)
      requires RecvsFit(recvs, |rxbuf|) && SendsFit(sends, |txbuf|) && (recvFails ==> sends == [])
      modifies this
      ensures IsRun(old(State()), PollSteps(old(State()), recvs, recvFails, sends, sendFails))
      ensures State() == Run(old(State()), PollSteps(old(State()), recvs, recvFails, sends, sendFails))
      ensures old(readyState) == CLOSED ==> State() == old(State())
      ensures Sum(sends) <= old(|txbuf|)
      ensures old(readyState) != CLOSED ==>
                && rxbuf == old(rxbuf) + Join(recvs) && txbuf == old(txbuf)[Sum(sends)..]
                && receivedData == old(receivedData) && calls == old(calls)
                && handled == old(handled) && accepted == old(accepted)
                && readyState == if recvFails || (sendFails && txbuf != []) then CLOSED
                                 else if old(readyState) == CLOSING && txbuf == [] then CLOSED else old(readyState)
    {
      hide IsRun, Run, Dispatch, Endpoints.SendData, CloseIt, Received, Pushed;
      ghost var start := State();
      PollOutcome(start, recvs, recvFails, sends, sendFails);
      NoSteps(start);
      if readyState == CLOSED {
        return;
      }
      ReceiveLoop(recvs, recvFails);
      ghost var received := Received(recvs, recvFails);
      SendLoop(sends, sendFails, start, received);
      if recvFails {
        NothingPushed(received);
        PushedAll(received, sends, false, |start.txbuf|);
      } else {
        ghost var steps := received + Pushed(sends, sendFails, |start.txbuf|);
        if readyState != CLOSED {
          RunAppend(start, steps, Flush);
        } else {
          assert steps + [] == steps;
        }
      }
      if txbuf == [] && readyState == CLOSING {
        readyState := CLOSED;
      }
    }
  }
}
