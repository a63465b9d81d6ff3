/** What the endpoint of src/network/easywsclient.cpp puts on the wire and makes of what it finds there, octet by
    octet, as section 5.2 of RFC 6455 lays it out. */
module WireFormat {
  import opened Options
  import opened Frames
  import opened Endpoints
  import opened EndpointRuns

  // ----- the octets of a frame -----

  lemma BitsAdd(fin: bool, rsv: byte, opcode: byte, c: byte, masked: bool)
    requires rsv & 0x8f == 0 && opcode & 0xf0 == 0 && c < 128
    ensures ((if fin then 0x80 else 0) | rsv | opcode) == (if fin then 0x80 else 0) + rsv + opcode
    ensures (c | if masked then 0x80 else 0) as nat == c as nat + if masked then 128 else 0
  {
  }

  lemma TwoOctets(n: nat)
    requires n < 65536
    ensures var b := BigEndian(n, 2); b[0] as nat * 0x100 + b[1] as nat == n
  {
    Powers();
    BigEndianRoundTrip(n, 2);
    var b := BigEndian(n, 2);
    assert b[..1] == [b[0]] && b[..1][..0] == [];
    assert FromBigEndian(b[..1]) == b[0] as nat;
  }

  /** The number that four octets denote, the first one counting most. */
  function Four(b: Bytes, k: nat): nat
    requires k + 4 <= |b|
  {
    b[k] as nat * 0x100_0000 + b[k + 1] as nat * 0x1_0000 + b[k + 2] as nat * 0x100 + b[k + 3] as nat
  }

  function Number(b: Bytes): nat
    requires |b| == 8
  {
    Four(b, 0) * 0x1_0000_0000 + Four(b, 4)
  }

  lemma OneMoreOctet(b: Bytes, k: nat)
    requires k < |b|
    ensures FromBigEndian(b[..k + 1]) == FromBigEndian(b[..k]) * 256 + b[k] as nat
  {
    assert b[..k + 1][..k] == b[..k];
  }

  lemma FourOctets(b: Bytes, k: nat)
    requires k + 4 <= |b|
    ensures FromBigEndian(b[..k + 4]) == FromBigEndian(b[..k]) * 0x1_0000_0000 + Four(b, k)
  {
    hide FromBigEndian;
    OneMoreOctet(b, k);
    OneMoreOctet(b, k + 1);
    OneMoreOctet(b, k + 2);
    OneMoreOctet(b, k + 3);
  }

  lemma EightOctets(b: Bytes)
    requires |b| == 8
    ensures FromBigEndian(b) == Number(b)
  {
    hide FromBigEndian, Four;
    NoOctets(b[..0]);
    FourOctets(b, 0);
    FourOctets(b, 4);
    assert b[..8] == b;
  }

  lemma NoOctets(b: Bytes)
    requires b == []
    ensures FromBigEndian(b) == 0
  {
  }

  /** Where the payload begins. */
  function BodyAt(form: LengthForm, masked: bool): nat {
    2 + (if form == Short then 0 else if form == Medium then 2 else 8) + if masked then 4 else 0
  }

  ghost predicate HeadOctets(b: Bytes, first: byte, form: LengthForm, masked: bool, n: nat) {
    && |b| == BodyAt(form, masked) + n && b[0] == first
    && b[1] as nat == (if masked then 128 else 0) + (if form == Short then n else if form == Medium then 126 else 127)
  }

  ghost predicate LengthOctetsAt(b: Bytes, form: LengthForm, n: nat) {
    && (form == Medium ==> |b| >= 4 && b[2] as nat * 0x100 + b[3] as nat == n)
    && (form == Long ==> |b| >= 10 && Number(b[2..10]) == n)
  }

  ghost predicate BodyOctets(b: Bytes, h: nat, key: Option<Key>, p: Bytes) {
    && |b| == h + |p|
    && (key != None ==> h >= 4 && b[h - 4..h] == key.value)
    && (forall i :: 0 <= i < |p| ==> b[h + i] == if key == None then p[i] else p[i] ^ key.value[i % 4])
  }

  /** One frame on the wire: FIN, reserved bits and opcode in the first octet; the mask bit and a length below 126,
      or 126 and two octets, or 127 and eight; and the key. Then the payload, each octet with its octet of the
      key. */
  ghost predicate Wire(b: Bytes, first: byte, form: LengthForm, key: Option<Key>, p: Bytes) {
    && HeadOctets(b, first, form, key != None, |p|)
    && LengthOctetsAt(b, form, |p|)
    && BodyOctets(b, BodyAt(form, key != None), key, p)
  }

  lemma FirstTwo(f: Frame)
    ensures Encode(f)[0] == FirstByte(f) && Encode(f)[1] == Code(f.form, |f.payload|) | MaskBit(f.key.Some?)
  {
    hide FirstByte, Code, MaskBit, BigEndian, Transformed;
  }

  lemma FirstByteSum(f: Frame)
    requires f.rsv & 0x8f == 0 && f.opcode & 0xf0 == 0
    ensures FirstByte(f) == (if f.fin then 0x80 else 0) + f.rsv + f.opcode
  {
    BitsAdd(f.fin, f.rsv, f.opcode, 0, false);
  }

  lemma CodeSum(form: LengthForm, n: nat, masked: bool)
    requires Fits(form, n)
    ensures (Code(form, n) | MaskBit(masked)) as nat ==
              (if masked then 128 else 0) + if form == Short then n else if form == Medium then 126 else 127
  {
    if form == Short {
      SmallByte(n);
    }
    hide AsByte;
    BitsAdd(false, 0, 0, Code(form, n), masked);
  }

  lemma FirstOctets(f: Frame)
    requires IsFrame(f)
    ensures Encode(f)[0] == (if f.fin then 0x80 else 0) + f.rsv + f.opcode
    ensures Encode(f)[1] as nat == (if f.key == None then 0 else 128) +
              (if f.form == Short then |f.payload| else if f.form == Medium then 126 else 127)
  {
    FrameFields(f);
    assert Fits(f.form, |f.payload|);
    hide FirstByte, Code, MaskBit, Encode, Fits, IsFrame;
    FirstTwo(f);
    FirstByteSum(f);
    CodeSum(f.form, |f.payload|, f.key.Some?);
  }

  /** The parts of an encoding: two octets, the length, the key, the payload. */
  lemma Parts(f: Frame)
    requires IsFrame(f)
    ensures var b, w, n := Encode(f), Width(f.form), |f.payload|;
            var h := 2 + w + if f.key == None then 0 else 4;
            && |b| == h + n && b[2..2 + w] == BigEndian(n, w) && (f.key != None ==> b[2 + w..h] == f.key.value)
            && b[h..] == if f.key == None then f.payload else Masked(f.payload, f.key.value)
  {
    hide BigEndian, Masked, FirstByte, Code, MaskBit, IsFrame;
    assert Encode(f) == Header(f) + Transformed(f.payload, f.key);
  }

  lemma HeadPlace(f: Frame)
    requires IsFrame(f)
    ensures HeadOctets(Encode(f), (if f.fin then 0x80 else 0) + f.rsv + f.opcode, f.form, f.key != None, |f.payload|)
  {
    hide BigEndian, Encode, IsFrame, Masked;
    FirstOctets(f);
    Parts(f);
  }

  lemma LengthPlace(f: Frame)
    requires IsFrame(f)
    ensures LengthOctetsAt(Encode(f), f.form, |f.payload|)
  {
    assert Fits(f.form, |f.payload|);
    hide BigEndian, Number, Encode, IsFrame, Fits, Masked;
    Parts(f);
    LengthInOctets(f);
    assert f.form == Medium ==> Encode(f)[2] == Encode(f)[2..4][0] && Encode(f)[3] == Encode(f)[2..4][1];
  }

  lemma BodyPlace(f: Frame)
    requires IsFrame(f)
    ensures BodyOctets(Encode(f), BodyAt(f.form, f.key != None), f.key, f.payload)
  {
    hide BigEndian, Encode, IsFrame, Masked;
    Parts(f);
    if f.key != None {
      MaskedAt(f.payload, f.key.value);
    }
    var h := BodyAt(f.form, f.key != None);
    assert forall i :: 0 <= i < |f.payload| ==> Encode(f)[h + i] == Encode(f)[h..][i];
  }

  lemma FrameOctets(f: Frame)
    requires IsFrame(f)
    ensures Wire(Encode(f), (if f.fin then 0x80 else 0) + f.rsv + f.opcode, f.form, f.key, f.payload)
  {
    hide Encode, IsFrame, HeadOctets, LengthOctetsAt, BodyOctets, BodyAt;
    HeadPlace(f);
    LengthPlace(f);
    BodyPlace(f);
  }

  lemma LengthInOctets(f: Frame)
    requires Fits(f.form, |f.payload|)
    ensures var n := |f.payload|;
            && (f.form == Medium ==> BigEndian(n, 2)[0] as nat * 0x100 + BigEndian(n, 2)[1] as nat == n)
            && (f.form == Long ==> Number(BigEndian(n, 8)) == n)
  {
    var n := |f.payload|;
    if f.form == Medium {
      TwoOctets(n);
    } else if f.form == Long {
      Powers();
      BigEndianRoundTrip(n, 8);
      EightOctets(BigEndian(n, 8));
    }
  }

  lemma MaskedAt(p: Bytes, key: Key)
    ensures forall i :: 0 <= i < |p| ==> Masked(p, key)[i] == p[i] ^ key[i % 4]
  {
  }

  lemma SameTwo(a: Bytes, b: Bytes)
    requires |a| == |b| == 2 && a[0] as nat * 0x100 + a[1] as nat == b[0] as nat * 0x100 + b[1] as nat
    ensures a == b
  {
    assert a[0] as nat == b[0] as nat && a[1] as nat == b[1] as nat;
    SameByte(a[0], b[0]);
    SameByte(a[1], b[1]);
  }

  lemma SameEight(a: Bytes, b: Bytes)
    requires |a| == |b| == 8 && Number(a) == Number(b)
    ensures a == b
  {
    hide Number, FromBigEndian, BigEndian;
    EightOctets(a);
    EightOctets(b);
    FromBigEndianRoundTrip(a);
    FromBigEndianRoundTrip(b);
  }

  lemma SameHead(a: Bytes, b: Bytes, first: byte, form: LengthForm, masked: bool, n: nat)
    requires HeadOctets(a, first, form, masked, n) && HeadOctets(b, first, form, masked, n)
    ensures |a| == |b| == BodyAt(form, masked) + n && a[..2] == b[..2]
  {
    SameByte(a[1], b[1]);
  }

  lemma SameLengthOctets(a: Bytes, b: Bytes, form: LengthForm, n: nat)
    requires LengthOctetsAt(a, form, n) && LengthOctetsAt(b, form, n)
    requires |a| == |b| >= BodyAt(form, false)
    ensures a[2..BodyAt(form, false)] == b[2..BodyAt(form, false)]
  {
    hide Number;
    if form == Medium {
      SameTwo(a[2..4], b[2..4]);
    } else if form == Long {
      SameEight(a[2..10], b[2..10]);
    }
  }

  lemma SameBody(a: Bytes, b: Bytes, h: nat, key: Option<Key>, p: Bytes)
    requires BodyOctets(a, h, key, p) && BodyOctets(b, h, key, p)
    ensures |a| == |b| >= h && a[h..] == b[h..] && (key != None ==> h >= 4 && a[h - 4..h] == b[h - 4..h])
  {
    forall i | 0 <= i < |p| ensures a[h..][i] == b[h..][i] {
      assert a[h + i] == if key == None then p[i] else p[i] ^ key.value[i % 4];
      assert b[h + i] == if key == None then p[i] else p[i] ^ key.value[i % 4];
    }
  }

  /** The layout leaves no choice. */
  lemma WireUnique(a: Bytes, b: Bytes, first: byte, form: LengthForm, key: Option<Key>, p: Bytes)
    requires Wire(a, first, form, key, p) && Wire(b, first, form, key, p)
    ensures a == b
  {
    hide HeadOctets, LengthOctetsAt, BodyOctets;
    SameHead(a, b, first, form, key != None, |p|);
    SameLengthOctets(a, b, form, |p|);
    SameBody(a, b, BodyAt(form, key != None), key, p);
    SamePieces(a, b, BodyAt(form, false), BodyAt(form, key != None));
  }

  lemma SamePieces(a: Bytes, b: Bytes, i: nat, j: nat)
    requires 2 <= i <= j <= |a| == |b| && a[..2] == b[..2] && a[2..i] == b[2..i] && (i < j ==> a[i..j] == b[i..j])
    requires a[j..] == b[j..]
    ensures a == b
  {
    assert a == a[..2] + a[2..i] + a[i..j] + a[j..] && b == b[..2] + b[2..i] + b[i..j] + b[j..];
  }

  /** So the decoder takes a frame from the head of a buffer exactly when the buffer begins with that layout. */
  lemma ParseWire(buf: Bytes, f: Frame, n: nat)
    requires IsFrame(f)
    ensures Parse(buf) == Complete(f, n) <==>
              n <= |buf| && Wire(buf[..n], (if f.fin then 0x80 else 0) + f.rsv + f.opcode, f.form, f.key, f.payload)
  {
    hide Parse, Encode, IsFrame, Wire;
    FrameOctets(f);
    ParseExact(buf, f);
    if Parse(buf) == Complete(f, n) {
      ParseSound(buf);
    } else if n <= |buf| && Wire(buf[..n], (if f.fin then 0x80 else 0) + f.rsv + f.opcode, f.form, f.key, f.payload) {
      WireUnique(buf[..n], Encode(f), (if f.fin then 0x80 else 0) + f.rsv + f.opcode, f.form, f.key, f.payload);
    }
  }

  lemma WhatIsSent(e: Endpoint, s: Step) returns (f: Frame)
    requires e.readyState == OPEN && Enabled(e, s) && (s.Send? || s.SendBinary? || s.SendPing?)
    ensures Apply(e, s).txbuf == e.txbuf + Encode(f) && IsFrame(f)
    ensures f.fin && f.rsv == 0 && f.opcode == if s.Send? then 0x1 else if s.SendBinary? then 0x2 else 0x9
    ensures f.payload == if s.SendPing? then [] else s.message
    ensures f.form == if |f.payload| < 126 then Short else if |f.payload| < 65536 then Medium else Long
    ensures f.key == if e.useMask then Some([0x12, 0x34, 0x56, 0x78]) else None
  {
    hide Encode, IsFrame;
    var p := if s.SendPing? then [] else s.message;
    f := DataFrame(if s.Send? then TEXT_FRAME else if s.SendBinary? then BINARY_FRAME else PING, p, e.useMask);
    DataFrameIsFrame(f.opcode, p, e.useMask);
  }

  /** What the endpoint sends while OPEN: `send` a frame with 0x81, `sendBinary` 0x82, `sendPing` 0x89, in the
      shortest form there is; masked, if it masks, with the key 12 34 56 78. */
  lemma SentOctets(e: Endpoint, s: Step)
    requires e.readyState == OPEN && Enabled(e, s) && (s.Send? || s.SendBinary? || s.SendPing?)
    ensures var p := if s.SendPing? then [] else s.message;
            && e.txbuf <= Apply(e, s).txbuf
            && Wire(Apply(e, s).txbuf[|e.txbuf|..],
                    if s.Send? then 0x81 else if s.SendBinary? then 0x82 else 0x89,
                    if |p| < 126 then Short else if |p| < 65536 then Medium else Long,
                    if e.useMask then Some([0x12, 0x34, 0x56, 0x78]) else None, p)
  {
    hide *;
    var f := WhatIsSent(e, s);
    FrameOctets(f);
    assert Apply(e, s).txbuf[|e.txbuf|..] == Encode(f);
  }

  /** `close` sends six octets and moves to CLOSING; once CLOSING or CLOSED, nothing that is called sends any more. */
  lemma CloseOctets(e: Endpoint, s: Step)
    requires Enabled(e, s) && (s.Send? || s.SendBinary? || s.SendPing? || s.Close?)
    ensures e.readyState == CLOSING || e.readyState == CLOSED ==> Apply(e, s) == e
    ensures s.Close? && e.readyState == OPEN ==>
              Apply(e, s).txbuf == e.txbuf + [0x88, 0x80, 0, 0, 0, 0] && Apply(e, s).readyState == CLOSING
  {
    hide Encode;
    CloseFrameBytes();
  }

  // ----- what the endpoint makes of one frame -----

  lemma HeaderBits(second: byte, n: nat, masked: bool)
    requires second as nat == n + (if masked then 128 else 0) && n < 126
    ensures (second & 0x80 == 0x80) == masked && second & 0x7f < 126 && (second & 0x7f) as nat == n
  {
  }

  lemma ParseShort(first: byte, second: byte, key: Option<Key>, body: Bytes, p: Bytes)
    requires |body| == |p| < 126 && second as nat == |p| + if key == None then 0 else 128
    requires forall i :: 0 <= i < |p| ==> p[i] == if key == None then body[i] else body[i] ^ key.value[i % 4]
    ensures var buf := [first, second] + (if key == None then [] else key.value) + body;
            Parse(buf) == Complete(Frame(first & 0x80 == 0x80, first & 0x70, first & 0x0f, Short, key, p), |buf|)
  {
    var buf := [first, second] + (if key == None then [] else key.value) + body;
    ShortParts(buf, first, second, key, body);
    ShortLength(buf, |p|, key != None);
    assert p == Transformed(body, key);
    hide *;
    ParseUnfolds(buf);
    WholeBuffer(buf, key, p);
  }

  lemma ShortLength(buf: Bytes, n: nat, masked: bool)
    requires |buf| >= 2 && n < 126 && buf[1] as nat == n + (if masked then 128 else 0)
    ensures (buf[1] & 0x80 == 0x80) == masked && FormOf(buf[1] & 0x7f) == Short && PayloadLength(buf) == n
  {
    HeaderBits(buf[1], n, masked);
  }

  lemma WholeBuffer(buf: Bytes, key: Option<Key>, p: Bytes)
    requires |p| < 126 && |buf| == HeaderSize(Short, key.Some?) + |p|
    requires key.Some? ==> buf[|buf| - |p| - 4..|buf| - |p|] == key.value
    requires Transformed(buf[|buf| - |p|..], key) == p
    ensures ParseWith(buf, Short, key.Some?, |p|) ==
            Complete(Frame(buf[0] & 0x80 == 0x80, buf[0] & 0x70, buf[0] & 0x0f, Short, key, p), |buf|)
  {
    hide Transformed;
    assert buf[|buf| - |p|..|buf|] == buf[|buf| - |p|..];
  }

  lemma ShortParts(buf: Bytes, first: byte, second: byte, key: Option<Key>, body: Bytes)
    requires buf == [first, second] + (if key == None then [] else key.value) + body
    ensures var h := HeaderSize(Short, key != None);
            && |buf| == h + |body| && buf[0] == first && buf[1] == second && buf[h..] == body
            && (key != None ==> buf[h - 4..h] == key.value)
  {
  }

  lemma DispatchOne(e: Endpoint, f: Frame)
    requires Parse(e.rxbuf) == Complete(f, |e.rxbuf|)
    ensures Dispatch(e) == Handle(e, f).(rxbuf := [])
  {
    hide Handle;
    var e' := Consume(e);
    assert e.rxbuf[|e.rxbuf|..] == [];
    assert e'.rxbuf == [] && Parse(e'.rxbuf).Incomplete?;
    hide Parse;
    assert Dispatch(e') == e';
  }

  lemma Opcodes(op: byte)
    requires op & 0xf0 == 0
    ensures (op == TEXT_FRAME || op == BINARY_FRAME || op == CONTINUATION) <==> op <= 2
  {
  }

  lemma Nibble(first: byte)
    ensures (first & 0x0f) & 0xf0 == 0 && (first & 0x80 == 0x80 <==> first >= 0x80)
  {
  }

  /** What dispatching one frame does, whatever its first octet, its key and the state before: opcodes 0, 1 and 2
      carry data, of which FIN makes a message; 9 asks for a PONG, 10 for nothing, and all others close. `p` is the
      payload once the key is taken off. */
  lemma OneFrame(e: Endpoint, first: byte, second: byte, key: Option<Key>, body: Bytes, p: Bytes)
    requires e.rxbuf == [first, second] + (if key == None then [] else key.value) + body
    requires |body| == |p| < 126 && second as nat == |p| + if key == None then 0 else 128
    requires forall i :: 0 <= i < |p| ==> p[i] == if key == None then body[i] else body[i] ^ key.value[i % 4]
    ensures var e', op, left := Dispatch(e), first & 0x0f, e.readyState == CLOSING || e.readyState == CLOSED;
            && e'.rxbuf == []
            && e'.calls == (if op <= 2 && first >= 0x80 then e.calls + [e.receivedData + p] else e.calls)
            && e'.receivedData ==
                 (if op > 2 then e.receivedData else if first >= 0x80 then [] else e.receivedData + p)
            && (left || op <= 2 || op == 10 ==> e'.txbuf == e.txbuf && e'.readyState == e.readyState)
            && (!left && op == 9 ==> PongSent(e, e', p))
            && (!left && op > 2 && op != 9 && op != 10 ==>
                  e'.txbuf == e.txbuf + [0x88, 0x80, 0, 0, 0, 0] && e'.readyState == CLOSING)
  {
    hide Parse, Encode;
    var f := Frame(first & 0x80 == 0x80, first & 0x70, first & 0x0f, Short, key, p);
    ParseShort(first, second, key, body, p);
    DispatchOne(e, f);
    Nibble(first);
    Opcodes(f.opcode);
    CloseFrameBytes();
    if f.opcode == 9 && !Left(e.readyState) {
      PongOctets(e, f);
    }
  }

  /** A PONG with the given payload has been put behind what waits to be sent. */
  ghost predicate PongSent(e: Endpoint, e': Endpoint, p: Bytes) {
    && e'.readyState == e.readyState && e.txbuf <= e'.txbuf
    && Wire(e'.txbuf[|e.txbuf|..], 0x8a, Short, if e.useMask then Some([0x12, 0x34, 0x56, 0x78]) else None, p)
  }

  lemma PongOctets(e: Endpoint, f: Frame)
    requires f.opcode == 9 && |f.payload| < 126 && !Left(e.readyState)
    ensures PongSent(e, Handle(e, f), f.payload)
  {
    var pong := DataFrame(PONG, f.payload, e.useMask);
    hide Encode, IsFrame;
    DataFrameIsFrame(PONG, f.payload, e.useMask);
    assert Handle(e, f).txbuf == e.txbuf + Encode(pong) && Handle(e, f).readyState == e.readyState;
    assert pong.fin && pong.rsv == 0 && pong.opcode == 0xa && pong.form == Short && pong.payload == f.payload;
    assert pong.key == if e.useMask then Some([0x12, 0x34, 0x56, 0x78]) else None;
    hide Handle, Wire;
    FrameOctets(pong);
    assert Handle(e, f).txbuf[|e.txbuf|..] == Encode(pong);
  }

  // ----- messages in fragments -----

  /** The first fragment carries the opcode, the others 0, and the last one FIN. */
  ghost function Fragment(first: byte, ps: seq<Bytes>, i: nat): Bytes
    requires i < |ps| && |ps[i]| < 126
  {
    [(if i == 0 then first else 0) + (if i == |ps| - 1 then 0x80 else 0), AsByte(|ps[i]|)] + ps[i]
  }

  ghost predicate Fragments(first: byte, ps: seq<Bytes>, chunks: seq<Bytes>) {
    |chunks| == |ps| && forall i :: 0 <= i < |ps| ==> |ps[i]| < 126 && chunks[i] == Fragment(first, ps, i)
  }

  lemma NextFragment(e: Endpoint, first: byte, ps: seq<Bytes>, i: nat)
    requires (first == 0x1 || first == 0x2) && i < |ps| && |ps[i]| < 126 && e.rxbuf == []
    ensures var e', last := Dispatch(Receive(e, Fragment(first, ps, i))), i == |ps| - 1;
            && e'.rxbuf == [] && e'.txbuf == e.txbuf && e'.readyState == e.readyState
            && e'.calls == (if last then e.calls + [e.receivedData + ps[i]] else e.calls)
            && e'.receivedData == if last then [] else e.receivedData + ps[i]
  {
    hide Dispatch;
    var chunk := Fragment(first, ps, i);
    assert [] + chunk == chunk == [chunk[0], chunk[1]] + [] + ps[i];
    FragmentByte(first, i == 0, i == |ps| - 1);
    OneFrame(Receive(e, chunk), chunk[0], chunk[1], None, ps[i], ps[i]);
  }

  lemma FragmentByte(first: byte, begins: bool, ends: bool)
    requires first == 0x1 || first == 0x2
    ensures var b := (if begins then first else 0) + (if ends then 0x80 else 0); b & 0x0f <= 2 && (b >= 0x80 <==> ends)
  {
  }

  /** The state after the first fragments of a message, and after the last. */
  ghost predicate Fragmented(e: Endpoint, ps: seq<Bytes>, k: nat)
    requires k <= |ps|
  {
    && e.rxbuf == [] && e.txbuf == [] && e.readyState == OPEN
    && e.calls == (if k == |ps| then [Join(ps)] else [])
    && e.receivedData == if k == |ps| then [] else Join(ps[..k])
  }

  lemma OneMoreFragment(e: Endpoint, first: byte, ps: seq<Bytes>, k: nat)
    requires (first == 0x1 || first == 0x2) && k < |ps| && |ps[k]| < 126 && Fragmented(e, ps, k)
    ensures Fragmented(Dispatch(Receive(e, Fragment(first, ps, k))), ps, k + 1)
  {
    hide Dispatch, Fragment, Join;
    NextFragment(e, first, ps, k);
    JoinOne(ps, k + 1);
  }

  lemma {:induction false} FirstFragments(useMask: bool, first: byte, ps: seq<Bytes>, chunks: seq<Bytes>, k: nat)
    requires (first == 0x1 || first == 0x2) && ps != [] && Fragments(first, ps, chunks) && k <= |ps|
    ensures Fragmented(DispatchChunks(Fresh(useMask), chunks[..k]), ps, k)
  {
    hide Dispatch, Fragment;
    if k > 0 {
      FirstFragments(useMask, first, ps, chunks, k - 1);
      assert chunks[..k][..k - 1] == chunks[..k - 1];
      hide Fragmented;
      OneMoreFragment(DispatchChunks(Fresh(useMask), chunks[..k - 1]), first, ps, k - 1);
    }
  }

  lemma JoinOne(ps: seq<Bytes>, k: nat)
    requires 0 < k <= |ps|
    ensures Join(ps[..k]) == Join(ps[..k - 1]) + ps[k - 1] && (k == |ps| ==> ps[..k] == ps)
  {
    assert ps[..k][..k - 1] == ps[..k - 1];
  }

  /** A text (0x1) or binary (0x2) message that comes in any number of fragments, and in whatever pieces the
      socket yields them, is called back once and whole, and nothing is answered. */
  lemma FragmentedMessage(useMask: bool, first: byte, ps: seq<Bytes>, chunks: seq<Bytes>, pieces: seq<Bytes>)
    requires (first == 0x1 || first == 0x2) && ps != [] && Fragments(first, ps, chunks)
    requires pieces != [] && Join(pieces) == Join(chunks)
    ensures var e := DispatchChunks(Fresh(useMask), pieces);
            e.calls == [Join(ps)] && e.receivedData == [] && e.txbuf == [] && e.readyState == OPEN && e.rxbuf == []
  {
    hide Dispatch, Join, Fragments;
    FirstFragments(useMask, first, ps, chunks, |ps|);
    assert |chunks| == |ps| by { FragmentCount(first, ps, chunks); }
    assert chunks[..|ps|] == chunks;
    AnyChunking(Fresh(useMask), chunks);
    AnyChunking(Fresh(useMask), pieces);
  }

  lemma FragmentCount(first: byte, ps: seq<Bytes>, chunks: seq<Bytes>)
    requires Fragments(first, ps, chunks)
    ensures |chunks| == |ps|
  {
  }

  /** In two fragments, byte by byte. */
  lemma TwoFragments(useMask: bool, first: byte, p: Bytes, q: Bytes, m: byte, n: byte)
    requires (first == 0x1 || first == 0x2) && |p| < 126 && |q| < 126 && m as nat == |p| && n as nat == |q|
    ensures var e := Dispatch(Receive(Fresh(useMask), ([first, m] + p) + ([0x80, n] + q)));
            e.calls == [p + q] && e.txbuf == [] && e.readyState == OPEN && e.rxbuf == []
  {
    var a, b: Bytes := [first, m] + p, [0x80, n] + q;
    hide Dispatch;
    FragmentByte(first, true, false);
    var e1, e2 := Dispatch(Receive(Fresh(useMask), a)), Dispatch(Receive(Fresh(useMask), a + b));
    AfterFirst(useMask, first, p, m);
    assert Receive(e1, b).rxbuf == b;
    PlainFrame(Receive(e1, b), 0x80, n, q);
    ChunkingIndependence(Fresh(useMask), a, b);
  }

  lemma AfterFirst(useMask: bool, first: byte, p: Bytes, m: byte)
    requires (first == 0x1 || first == 0x2) && |p| < 126 && m as nat == |p|
    ensures var e := Dispatch(Receive(Fresh(useMask), [first, m] + p));
            e.calls == [] && e.receivedData == p && e.txbuf == [] && e.readyState == OPEN && e.rxbuf == []
  {
    hide Dispatch;
    FragmentByte(first, true, false);
    var e := Receive(Fresh(useMask), [first, m] + p);
    assert e.rxbuf == [first, m] + p && [] + p == p;
    PlainFrame(e, first, m, p);
  }

  lemma PlainFrame(e: Endpoint, first: byte, n: byte, p: Bytes)
    requires e.rxbuf == [first, n] + p && |p| < 126 && n as nat == |p| && first & 0x0f <= 2
    ensures var e' := Dispatch(e);
            && e'.rxbuf == [] && e'.txbuf == e.txbuf && e'.readyState == e.readyState
            && e'.calls == (if first >= 0x80 then e.calls + [e.receivedData + p] else e.calls)
            && e'.receivedData == (if first >= 0x80 then [] else e.receivedData + p)
  {
    hide Dispatch;
    assert [first, n] + p == [first, n] + [] + p;
    OneFrame(e, first, n, None, p, p);
  }

  /** The masked example of section 5.7 of RFC 6455. */
  lemma MaskedHello(useMask: bool)
    ensures var e := Dispatch(Receive(Fresh(useMask),
                                      [0x81, 0x85, 0x37, 0xfa, 0x21, 0x3d, 0x7f, 0x9f, 0x4d, 0x51, 0x58]));
            e.calls == [[0x48, 0x65, 0x6c, 0x6c, 0x6f]] && e.txbuf == [] && e.readyState == OPEN && e.rxbuf == []
  {
    hide Dispatch;
    var key: Key, body, hello: Bytes :=
      [0x37, 0xfa, 0x21, 0x3d], [0x7f, 0x9f, 0x4d, 0x51, 0x58], [0x48, 0x65, 0x6c, 0x6c, 0x6f];
    var buf: Bytes := [0x81, 0x85, 0x37, 0xfa, 0x21, 0x3d, 0x7f, 0x9f, 0x4d, 0x51, 0x58];
    assert [] + buf == buf == [0x81, 0x85] + key + body && [] + hello == hello;
    HelloUnmasked();
    assert (0x81 as byte) & 0x0f == 1;
    OneFrame(Receive(Fresh(useMask), buf), 0x81, 0x85, Some(key), body, hello);
  }

  lemma HelloUnmasked()
    ensures (0x7f as byte) ^ 0x37 == 0x48 && (0x9f as byte) ^ 0xfa == 0x65 && (0x4d as byte) ^ 0x21 == 0x6c
    ensures (0x51 as byte) ^ 0x3d == 0x6c && (0x58 as byte) ^ 0x37 == 0x6f
  {
  }
}
