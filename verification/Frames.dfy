/** The wire format of one WebSocket frame (section 5.2 of RFC 6455), as encoded by
    `sendData` and `close` and decoded by `_dispatchBinary` in src/network/easywsclient.cpp. */
module Frames {
  import opened Options

  type byte = bv8
  type Bytes = seq<byte>
  type Key = k: Bytes | |k| == 4 witness [0, 0, 0, 0]

  // Lengths are uint64_t in the original, so sums of lengths wrap at 2^64.
  const WORD: nat := 0x1_0000_0000_0000_0000
  // A std::vector or std::string never holds 2^63 bytes or more.
  const MAX_SIZE: nat := 0x8000_0000_0000_0000

  const CONTINUATION: byte := 0x0
  const TEXT_FRAME: byte := 0x1
  const BINARY_FRAME: byte := 0x2
  const CLOSE: byte := 0x8
  const PING: byte := 0x9
  const PONG: byte := 0xa

  const MASKING_KEY: Key := [0x12, 0x34, 0x56, 0x78]
  const ZERO_KEY: Key := [0, 0, 0, 0]

  // ----- bytes and numbers -----

  lemma ShiftIn(b: byte, bit: byte)
    requires b < 128 && bit < 2
    ensures ((b << 1) | bit) as nat == 2 * (b as nat) + (bit as nat)
  {
  }

  lemma BelowHalf(b: byte)
    requires b as nat < 128
    ensures b < 128
  {
  }

  /** The byte with a given value, built bit by bit. */
  function AsByte(n: nat): (b: byte)
    requires n < 256
    ensures b as nat == n
  {
    if n == 0 then 0
    else
      var high, bit: byte := AsByte(n / 2), if n % 2 == 1 then 1 else 0;
      BelowHalf(high);
      ShiftIn(high, bit);
      (high << 1) | bit
  }

  lemma SameByte(a: byte, b: byte)
    requires a as nat == b as nat
    ensures a == b
  {
  }

  // ----- masking -----

  function Masked(p: Bytes, key: Key): (r: Bytes)
    ensures |r| == |p|
  {
    seq(|p|, i requires 0 <= i < |p| => p[i] ^ key[i % 4])
  }

  lemma XorTwice(a: byte, b: byte)
    ensures (a ^ b) ^ b == a
  {
  }

  lemma MaskedTwice(p: Bytes, key: Key)
    ensures Masked(Masked(p, key), key) == p
  {
    forall i | 0 <= i < |p|
      ensures Masked(Masked(p, key), key)[i] == p[i]
    {
      XorTwice(p[i], key[i % 4]);
    }
  }

  /** The first octet of a payload meets the first of the key, and the rest of it the key turned by one. */
  lemma MaskedFirst(b: byte, rest: Bytes, key: Key)
    ensures Masked([b] + rest, key) == [b ^ key[0]] + Masked(rest, key[1..] + key[..1])
  {
    var turned: Key := key[1..] + key[..1];
    assert forall i :: 0 <= i < 4 ==> turned[i] == key[(i + 1) % 4];
    forall i | 0 < i <= |rest| ensures Masked([b] + rest, key)[i] == Masked(rest, turned)[i - 1] {
      assert key[i % 4] == turned[(i - 1) % 4];
    }
  }

  lemma XorSelf(b: byte)
    ensures b ^ b == 0
  {
  }

  lemma MaskedKey(key: Key)
    ensures Masked(key, key) == [0, 0, 0, 0]
  {
    forall i | 0 <= i < 4 ensures Masked(key, key)[i] == 0 {
      XorSelf(key[i]);
    }
  }

  // ----- big-endian numbers -----

  function Pow256(width: nat): (r: nat)
    ensures r >= 1
  {
    if width == 0 then 1 else 256 * Pow256(width - 1)
  }

  function BigEndian(n: nat, width: nat): (r: Bytes)
    ensures |r| == width
  {
    if width == 0 then [] else BigEndian(n / 256, width - 1) + [AsByte(n % 256)]
  }

  function FromBigEndian(b: Bytes): nat {
    if b == [] then 0 else FromBigEndian(b[..|b| - 1]) * 256 + b[|b| - 1] as nat
  }

  lemma {:induction false} FromBigEndianBound(b: Bytes)
    ensures FromBigEndian(b) < Pow256(|b|)
  {
    if b != [] {
      FromBigEndianBound(b[..|b| - 1]);
    }
  }

  lemma {:induction false} BigEndianRoundTrip(n: nat, width: nat)
    requires n < Pow256(width)
    ensures FromBigEndian(BigEndian(n, width)) == n
  {
    if width > 0 {
      var b := BigEndian(n, width);
      BigEndianRoundTrip(n / 256, width - 1);
      assert b[..|b| - 1] == BigEndian(n / 256, width - 1);
    }
  }

  lemma {:induction false} FromBigEndianRoundTrip(b: Bytes)
    ensures BigEndian(FromBigEndian(b), |b|) == b
  {
    if b != [] {
      var front, last := b[..|b| - 1], b[|b| - 1];
      FromBigEndianRoundTrip(front);
      var n := FromBigEndian(b);
      assert n / 256 == FromBigEndian(front) && n % 256 == last as nat;
      SameByte(AsByte(n % 256), last);
      assert b == front + [last];
    }
  }

  lemma Powers()
    ensures Pow256(0) == 1 && Pow256(1) == 256 && Pow256(2) == 65536 && Pow256(8) == WORD
  {
    assert Pow256(3) == 0x100_0000;
    assert Pow256(4) == 0x1_0000_0000;
    assert Pow256(5) == 0x100_0000_0000;
    assert Pow256(6) == 0x1_0000_0000_0000;
  }

  // ----- frames -----

  datatype LengthForm = Short | Medium | Long

  /** One frame as it stands on the wire. `payload` is the unmasked payload. */
  datatype Frame = Frame(fin: bool, rsv: byte, opcode: byte, form: LengthForm, key: Option<Key>, payload: Bytes)

  function Width(form: LengthForm): nat {
    match form
    case Short => 0
    case Medium => 2
    case Long => 8
  }

  predicate Fits(form: LengthForm, n: nat) {
    match form
    case Short => n < 126
    case Medium => n < 65536
    case Long => n < WORD
  }

  function HeaderSize(form: LengthForm, masked: bool): nat {
    2 + Width(form) + if masked then 4 else 0
  }

  predicate IsFrame(f: Frame) {
    && f.rsv & 0x8f == 0
    && f.opcode & 0xf0 == 0
    && Fits(f.form, |f.payload|)
    && HeaderSize(f.form, f.key.Some?) + |f.payload| < WORD
  }

  function FirstByte(f: Frame): byte {
    (if f.fin then 0x80 else 0) | f.rsv | f.opcode
  }

  function Code(form: LengthForm, n: nat): (c: byte)
    ensures c < 128
  {
    match form
    case Short => BelowHalf(AsByte(n % 128)); AsByte(n % 128)
    case Medium => 126
    case Long => 127
  }

  lemma SmallByte(n: nat)
    requires n < 126
    ensures AsByte(n % 128) < 126 && AsByte(n % 128) as nat == n
  {
  }

  function MaskBit(masked: bool): byte {
    if masked then 0x80 else 0
  }

  function KeyBytes(key: Option<Key>): Bytes {
    if key.Some? then key.value else []
  }

  function Transformed(p: Bytes, key: Option<Key>): (r: Bytes)
    ensures |r| == |p|
  {
    if key.Some? then Masked(p, key.value) else p
  }

  function Header(f: Frame): (h: Bytes)
    ensures |h| == HeaderSize(f.form, f.key.Some?)
  {
    [FirstByte(f), Code(f.form, |f.payload|) | MaskBit(f.key.Some?)]
    + BigEndian(|f.payload|, Width(f.form))
    + KeyBytes(f.key)
  }

  /** The bytes of a frame. They are meaningful when `IsFrame(f)`. */
  function Encode(f: Frame): (b: Bytes)
    ensures |b| == HeaderSize(f.form, f.key.Some?) + |f.payload|
  {
    Header(f) + Transformed(f.payload, f.key)
  }

  // ----- the decoder -----

  /** What one pass of the receive loop finds at the head of the buffer. `Overrun` is a header
      whose size plus payload length does not fit in 64 bits: the original's comparison wraps. */
  datatype Parsed = Incomplete | Overrun | Complete(frame: Frame, size: nat)

  function FormOf(n0: byte): LengthForm {
    if n0 == 126 then Medium else if n0 == 127 then Long else Short
  }

  function PayloadLength(buf: Bytes): nat
    requires |buf| >= 2 && |buf| >= 2 + Width(FormOf(buf[1] & 0x7f))
  {
    var n0 := buf[1] & 0x7f;
    match FormOf(n0)
    case Short => n0 as nat
    case Medium => FromBigEndian(buf[2..4])
    case Long => FromBigEndian(buf[2..10])
  }

  function ParseWith(buf: Bytes, form: LengthForm, masked: bool, n: nat): (r: Parsed)
    requires |buf| >= HeaderSize(form, masked)
    ensures r.Complete? ==> 2 <= r.size <= |buf|
  {
    var size := HeaderSize(form, masked);
    if size + n >= WORD then Overrun
    else if |buf| < size + n then Incomplete
    else
      var key := if masked then Some(buf[size - 4..size]) else None;
      Complete(Frame(buf[0] & 0x80 == 0x80, buf[0] & 0x70, buf[0] & 0x0f, form, key,
                     Transformed(buf[size..size + n], key)), size + n)
  }

  function Parse(buf: Bytes): (r: Parsed)
    ensures r.Complete? ==> 2 <= r.size <= |buf|
  {
    if |buf| < 2 then Incomplete
    else
      var form := FormOf(buf[1] & 0x7f);
      var masked := buf[1] & 0x80 == 0x80;
      if |buf| < HeaderSize(form, masked) then Incomplete
      else ParseWith(buf, form, masked, PayloadLength(buf))
  }

  // ----- codec theorems -----

  lemma FirstByteFields(f: Frame)
    requires f.rsv & 0x8f == 0 && f.opcode & 0xf0 == 0
    ensures var b := FirstByte(f); (b & 0x80 == 0x80) == f.fin && b & 0x70 == f.rsv && b & 0x0f == f.opcode
  {
  }

  lemma FirstByteFromFields(b: byte)
    ensures (if b & 0x80 == 0x80 then 0x80 else 0) | (b & 0x70) | (b & 0x0f) == b
    ensures (b & 0x70) & 0x8f == 0 && (b & 0x0f) & 0xf0 == 0
  {
  }

  lemma SecondByteFields(c: byte, masked: bool)
    requires c < 128
    ensures var b := c | MaskBit(masked); (b & 0x80 == 0x80) == masked && b & 0x7f == c
  {
  }

  lemma SecondByteFromFields(b: byte)
    ensures (b & 0x7f) | MaskBit(b & 0x80 == 0x80) == b && b & 0x7f < 128
  {
  }

  lemma CodeForm(form: LengthForm, n: nat)
    requires Fits(form, n)
    ensures FormOf(Code(form, n)) == form
    ensures form.Short? ==> Code(form, n) as nat == n
  {
    if form.Short? {
      SmallByte(n);
    }
  }

  lemma SmallCode(c: byte)
    requires c < 126
    ensures c as nat < 126 && Code(Short, c as nat) == c
  {
    hide AsByte;
    var n := c as nat;
    assert n < 126 && n % 128 == n;
    SameByte(AsByte(n), c);
  }

  /** The length read back from an encoded header is the payload's length. */
  lemma HeaderLength(f: Frame, buf: Bytes)
    requires IsFrame(f) && Header(f) <= buf
    ensures FormOf(buf[1] & 0x7f) == f.form && (buf[1] & 0x80 == 0x80) == f.key.Some?
    ensures PayloadLength(buf) == |f.payload|
  {
    var n := |f.payload|;
    assert buf[1] == Header(f)[1];
    SecondByteFields(Code(f.form, n), f.key.Some?);
    CodeForm(f.form, n);
    Powers();
    if !f.form.Short? {
      assert buf[2..2 + Width(f.form)] == Header(f)[2..2 + Width(f.form)] == BigEndian(n, Width(f.form));
      BigEndianRoundTrip(n, Width(f.form));
    }
  }

  lemma TransformedTwice(p: Bytes, key: Option<Key>)
    ensures Transformed(Transformed(p, key), key) == p
  {
    hide Masked;
    if key.Some? {
      MaskedTwice(p, key.value);
    }
  }

  /** Section 5.3 of RFC 6455: the key sits just before the payload and unmasks it. */
  lemma EncodedBody(f: Frame, rest: Bytes)
    requires IsFrame(f)
    ensures var buf, h := Encode(f) + rest, |Header(f)|;
            && Header(f) <= buf
            && buf[0] == FirstByte(f)
            && (f.key.Some? ==> buf[h - 4..h] == f.key.value)
            && Transformed(buf[h..h + |f.payload|], f.key) == f.payload
  {
    hide FirstByte, Code, MaskBit, BigEndian, Transformed, IsFrame;
    var buf, header := Encode(f) + rest, Header(f);
    var h := |header|;
    var body := Transformed(f.payload, f.key);
    assert buf == header + (body + rest);
    assert buf[h..h + |f.payload|] == body;
    TransformedTwice(f.payload, f.key);
    if f.key.Some? {
      assert header[h - 4..h] == f.key.value;
      assert buf[h - 4..h] == header[h - 4..h];
    }
  }

  /** Decoding an encoded frame followed by anything gives back the frame and its exact size. */
  lemma ParseEncode(f: Frame, rest: Bytes)
    requires IsFrame(f)
    ensures Parse(Encode(f) + rest) == Complete(f, |Encode(f)|)
  {
    hide Encode, Header, PayloadLength, FormOf, FirstByte, Transformed, IsFrame;
    var buf := Encode(f) + rest;
    EncodedBody(f, rest);
    HeaderLength(f, buf);
    FrameFields(f);
    FirstByteFields(f);
    ParseUnfolds(buf);
    hide Parse;
  }

  lemma ParseUnfolds(buf: Bytes)
    requires |buf| >= 2 && |buf| >= HeaderSize(FormOf(buf[1] & 0x7f), buf[1] & 0x80 == 0x80)
    ensures Parse(buf) == ParseWith(buf, FormOf(buf[1] & 0x7f), buf[1] & 0x80 == 0x80, PayloadLength(buf))
  {
    hide PayloadLength, ParseWith;
  }

  lemma FrameFields(f: Frame)
    requires IsFrame(f)
    ensures f.rsv & 0x8f == 0 && f.opcode & 0xf0 == 0 && HeaderSize(f.form, f.key.Some?) + |f.payload| < WORD
  {
  }

  /** Conversely, the length octets of any header are the encoding of the length they denote. */
  lemma LengthOctets(buf: Bytes)
    requires |buf| >= 2 && |buf| >= 2 + Width(FormOf(buf[1] & 0x7f))
    ensures var form, n := FormOf(buf[1] & 0x7f), PayloadLength(buf);
            && Fits(form, n)
            && BigEndian(n, Width(form)) == buf[2..2 + Width(form)]
            && Code(form, n) | MaskBit(buf[1] & 0x80 == 0x80) == buf[1]
  {
    var n0 := buf[1] & 0x7f;
    var form := FormOf(n0);
    var octets := buf[2..2 + Width(form)];
    SecondByteFromFields(buf[1]);
    NumericPart(buf);
    hide FromBigEndian, BigEndian, Pow256, MaskBit, AsByte;
    if form.Short? {
      SmallCode(n0);
      assert PayloadLength(buf) == n0 as nat;
    }
    assert Code(form, PayloadLength(buf)) == n0;
  }

  lemma NumericPart(buf: Bytes)
    requires |buf| >= 2 && |buf| >= 2 + Width(FormOf(buf[1] & 0x7f))
    ensures var form, n := FormOf(buf[1] & 0x7f), PayloadLength(buf);
            Fits(form, n) && BigEndian(n, Width(form)) == buf[2..2 + Width(form)]
  {
    var form := FormOf(buf[1] & 0x7f);
    if form.Short? {
      SmallCode(buf[1] & 0x7f);
      assert buf[2..2] == [];
    } else {
      var octets := buf[2..2 + Width(form)];
      Powers();
      FromBigEndianBound(octets);
      FromBigEndianRoundTrip(octets);
      hide FromBigEndian, BigEndian, Pow256, AsByte;
      assert PayloadLength(buf) == FromBigEndian(octets);
    }
  }

  lemma ParsedFields(buf: Bytes)
    requires Parse(buf).Complete?
    ensures var Complete(f, size) := Parse(buf);
            var h := HeaderSize(f.form, f.key.Some?);
            && size == h + |f.payload| < WORD
            && f.form == FormOf(buf[1] & 0x7f) && f.key.Some? == (buf[1] & 0x80 == 0x80)
            && |f.payload| == PayloadLength(buf)
            && f.rsv == buf[0] & 0x70 && f.opcode == buf[0] & 0x0f && FirstByte(f) == buf[0]
            && KeyBytes(f.key) == buf[2 + Width(f.form)..h]
            && f.payload == Transformed(buf[h..size], f.key)
  {
    hide PayloadLength, FormOf, Masked;
    FirstByteFromFields(buf[0]);
  }

  lemma ParsedIsFrame(buf: Bytes)
    requires Parse(buf).Complete?
    ensures IsFrame(Parse(buf).frame)
  {
    ParsedFields(buf);
    FirstByteFromFields(buf[0]);
    NumericPart(buf);
    hide PayloadLength, BigEndian, FormOf, Transformed, Parse, KeyBytes, FirstByte;
  }

  lemma ParsedHeader(buf: Bytes)
    requires Parse(buf).Complete?
    ensures Header(Parse(buf).frame) == buf[..HeaderSize(Parse(buf).frame.form, Parse(buf).frame.key.Some?)]
  {
    hide PayloadLength, BigEndian, Code, MaskBit, FormOf, Transformed, Parse, KeyBytes, FirstByte, Fits;
    var f := Parse(buf).frame;
    var h, w := HeaderSize(f.form, f.key.Some?), Width(f.form);
    ParsedFields(buf);
    LengthOctets(buf);
    ThreeParts(buf, 2 + w, h);
    assert Header(f) == [buf[0], buf[1]] + buf[2..2 + w] + buf[2 + w..h];
  }

  lemma ThreeParts(buf: Bytes, i: nat, j: nat)
    requires 2 <= i <= j <= |buf|
    ensures buf[..j] == [buf[0], buf[1]] + buf[2..i] + buf[i..j]
  {
  }

  /** Whatever the decoder accepts is the encoding of the frame it reports. */
  lemma ParseSound(buf: Bytes)
    requires Parse(buf).Complete?
    ensures var Complete(f, size) := Parse(buf);
            IsFrame(f) && Encode(f) == buf[..size] && buf == Encode(f) + buf[size..]
  {
    hide Parse, Transformed, Header, PayloadLength, FirstByte;
    ParsedHeader(buf);
    ParsedIsFrame(buf);
    ParsedFields(buf);
    var Complete(f, size) := Parse(buf);
    var h := HeaderSize(f.form, f.key.Some?);
    TransformedTwice(buf[h..size], f.key);
    assert buf[..size] == buf[..h] + buf[h..size];
  }

  /** The decoder accepts exactly the buffers that begin with an encoded frame. */
  lemma ParseExact(buf: Bytes, f: Frame)
    requires IsFrame(f)
    ensures Parse(buf) == Complete(f, |Encode(f)|) <==> Encode(f) <= buf
  {
    hide Parse, Encode;
    if Encode(f) <= buf {
      ParseEncode(f, buf[|Encode(f)|..]);
      assert buf == Encode(f) + buf[|Encode(f)|..];
    }
    if Parse(buf) == Complete(f, |Encode(f)|) {
      ParseSound(buf);
    }
  }

  lemma SameLength(buf: Bytes, more: Bytes)
    requires |buf| >= 2 && |buf| >= 2 + Width(FormOf(buf[1] & 0x7f))
    ensures PayloadLength(buf + more) == PayloadLength(buf)
  {
    hide FromBigEndian;
    assert (buf + more)[1] == buf[1];
    assert |buf| >= 4 ==> (buf + more)[2..4] == buf[2..4];
    assert |buf| >= 10 ==> (buf + more)[2..10] == buf[2..10];
  }

  lemma ParseWithExtend(buf: Bytes, more: Bytes, form: LengthForm, masked: bool, n: nat)
    requires |buf| >= HeaderSize(form, masked) && !ParseWith(buf, form, masked, n).Incomplete?
    ensures ParseWith(buf + more, form, masked, n) == ParseWith(buf, form, masked, n)
  {
    hide Transformed;
    var h := HeaderSize(form, masked);
    var all := buf + more;
    if h + n < WORD {
      assert h + n <= |buf|;
      assert all[0] == buf[0];
      assert all[..|buf|] == buf;
      assert all[h..h + n] == all[..|buf|][h..h + n];
      assert masked ==> all[h - 4..h] == all[..|buf|][h - 4..h];
    }
  }

  /** A verdict other than `Incomplete` does not change when more bytes arrive. */
  lemma ParseExtend(buf: Bytes, more: Bytes)
    requires !Parse(buf).Incomplete?
    ensures Parse(buf + more) == Parse(buf)
  {
    hide ParseWith, PayloadLength, FormOf;
    var form, masked := FormOf(buf[1] & 0x7f), buf[1] & 0x80 == 0x80;
    assert (buf + more)[1] == buf[1];
    assert Parse(buf) == ParseWith(buf, form, masked, PayloadLength(buf));
    SameLength(buf, more);
    ParseWithExtend(buf, more, form, masked, PayloadLength(buf));
  }

  /** The original compares the buffer size with `header_size + N` computed modulo 2^64. That
      comparison means "the frame is incomplete" exactly when the sum does not wrap. */
  lemma WrappedComparison(available: nat, headerSize: nat, n: nat)
    requires headerSize <= available < WORD && headerSize <= 14 && n < WORD
    ensures (available < (headerSize + n) % WORD <==> available < headerSize + n) <==> headerSize + n < WORD
  {
    if headerSize + n >= WORD {
      assert (headerSize + n) % WORD == headerSize + n - WORD < headerSize;
    }
  }

  /** A header that makes the comparison wrap: an unmasked 2^64 - 1 byte frame announced in ten bytes. */
  lemma OverrunExample()
    ensures Parse([0x82, 0x7f, 0xff, 0xff, 0xff, 0xff, 0xff, 0xff, 0xff, 0xff]).Overrun?
  {
    var buf: Bytes := [0x82, 0x7f, 0xff, 0xff, 0xff, 0xff, 0xff, 0xff, 0xff, 0xff];
    LargestLength(buf[2..10]);
    LargestCode();
    hide FromBigEndian;
    assert FormOf(buf[1] & 0x7f) == Long && PayloadLength(buf) == WORD - 1;
  }

  lemma LargestLength(b: Bytes)
    requires |b| == 8 && forall k :: 0 <= k < 8 ==> b[k] == 0xff
    ensures FromBigEndian(b) == WORD - 1
  {
    AllOnes(b);
    Powers();
  }

  lemma LargestCode()
    ensures (0x7f as byte) & 0x7f == 127 && (0x7f as byte) & 0x80 == 0
  {
  }

  lemma SameValue(b: byte)
    requires b == 0xff
    ensures b as nat == 255
  {
  }

  lemma {:induction false} AllOnes(b: Bytes)
    requires forall k :: 0 <= k < |b| ==> b[k] == 0xff
    ensures FromBigEndian(b) == Pow256(|b|) - 1
  {
    if b != [] {
      AllOnes(b[..|b| - 1]);
      SameValue(b[|b| - 1]);
    }
  }

  // ----- frames built by the sender -----

  function ShortestForm(n: nat): LengthForm {
    if n < 126 then Short else if n < 65536 then Medium else Long
  }

  predicate IsOpcode(op: byte) {
    op & 0xf0 == 0
  }

  function DataFrame(op: byte, payload: Bytes, useMask: bool): Frame {
    Frame(true, 0, op, ShortestForm(|payload|), if useMask then Some(MASKING_KEY) else None, payload)
  }

  const CLOSE_FRAME: Frame := Frame(true, 0, CLOSE, Short, Some(ZERO_KEY), [])

  lemma DataFrameIsFrame(op: byte, payload: Bytes, useMask: bool)
    requires IsOpcode(op) && |payload| < MAX_SIZE
    ensures IsFrame(DataFrame(op, payload, useMask))
  {
  }

  lemma CloseFrameBytes()
    ensures IsFrame(CLOSE_FRAME) && Encode(CLOSE_FRAME) == [0x88, 0x80, 0, 0, 0, 0]
  {
    assert FirstByte(CLOSE_FRAME) == 0x88;
    assert Code(Short, 0) == 0;
    assert (0 as byte) | 0x80 == 0x80;
  }

  /** `sendData` picks the shortest of all encodings of a payload (section 5.2 of RFC 6455). */
  lemma ShortestEncoding(op: byte, payload: Bytes, useMask: bool, f: Frame)
    requires IsOpcode(op) && |payload| < MAX_SIZE
    requires IsFrame(f) && f.payload == payload && f.key.Some? == useMask
    ensures IsFrame(DataFrame(op, payload, useMask))
    ensures |Encode(DataFrame(op, payload, useMask))| <= |Encode(f)|
    ensures |Encode(DataFrame(op, payload, useMask))| == |Encode(f)| ==> f.form == ShortestForm(|payload|)
  {
    DataFrameIsFrame(op, payload, useMask);
  }

  // ----- streams of frames -----

  ghost predicate AreFrames(fs: seq<Frame>) {
    forall i :: 0 <= i < |fs| ==> IsFrame(fs[i])
  }

  ghost function EncodeAll(fs: seq<Frame>): Bytes {
    if fs == [] then [] else EncodeAll(fs[..|fs| - 1]) + Encode(fs[|fs| - 1])
  }

  lemma EncodeAllLast(fs: seq<Frame>, f: Frame)
    ensures EncodeAll(fs + [f]) == EncodeAll(fs) + Encode(f)
  {
    hide Encode;
    assert (fs + [f])[..|fs|] == fs;
  }

  lemma {:induction false} EncodeAllAppend(fs: seq<Frame>, gs: seq<Frame>)
    ensures EncodeAll(fs + gs) == EncodeAll(fs) + EncodeAll(gs)
    decreases |gs|
  {
    hide Encode;
    if gs == [] {
      assert fs + gs == fs;
    } else {
      var front := gs[..|gs| - 1];
      EncodeAllAppend(fs, front);
      assert (fs + gs)[..|fs + gs| - 1] == fs + front;
    }
  }

  lemma EncodeAllFirst(fs: seq<Frame>)
    requires fs != []
    ensures EncodeAll(fs) == Encode(fs[0]) + EncodeAll(fs[1..])
  {
    hide Encode;
    assert fs == [fs[0]] + fs[1..];
    EncodeAllAppend([fs[0]], fs[1..]);
    EncodeAllLast([], fs[0]);
    assert [] + [fs[0]] == [fs[0]];
  }

  /** Encodings form a prefix code. */
  lemma FirstFrame(f: Frame, after: Bytes, g: Frame, rest: Bytes)
    requires IsFrame(f) && IsFrame(g) && Encode(f) + after == Encode(g) + rest
    ensures f == g && after == rest
  {
    hide Encode, IsFrame, Parse;
    ParseEncode(f, after);
    ParseEncode(g, rest);
    assert after == (Encode(f) + after)[|Encode(f)|..] == rest;
  }

  /** Frames are self-delimiting: if one stream of whole frames is a prefix of another, then
      frame by frame. */
  lemma {:induction false} PrefixFrames(fs: seq<Frame>, tail: Bytes, gs: seq<Frame>)
    requires AreFrames(fs) && AreFrames(gs)
    requires EncodeAll(fs) + tail == EncodeAll(gs)
    ensures fs <= gs && tail == EncodeAll(gs[|fs|..])
    decreases |fs|
  {
    assert EncodeAll([]) == [];
    hide Encode, EncodeAll, IsFrame;
    if fs == [] {
      assert gs[0..] == gs;
    } else {
      EncodeAllFirst(fs);
      assert gs != [];
      EncodeAllFirst(gs);
      FirstSplit(Encode(fs[0]), EncodeAll(fs[1..]), tail);
      FirstFrame(fs[0], EncodeAll(fs[1..]) + tail, gs[0], EncodeAll(gs[1..]));
      PrefixFrames(fs[1..], tail, gs[1..]);
      ConsPrefix(fs, gs);
    }
  }

  lemma FirstSplit(a: Bytes, b: Bytes, c: Bytes)
    ensures a + b + c == a + (b + c)
  {
  }

  lemma ConsPrefix(fs: seq<Frame>, gs: seq<Frame>)
    requires fs != [] && gs != [] && fs[0] == gs[0] && fs[1..] <= gs[1..]
    ensures fs <= gs && gs[1..][|fs[1..]|..] == gs[|fs|..]
  {
    assert fs == [fs[0]] + fs[1..] && gs == [gs[0]] + gs[1..];
  }

  lemma EmptyEncoding(fs: seq<Frame>)
    requires EncodeAll(fs) == []
    ensures fs == []
  {
    hide Encode;
  }

  /** A byte stream is the encoding of at most one list of frames. */
  lemma UniqueFrames(fs: seq<Frame>, gs: seq<Frame>)
    requires AreFrames(fs) && AreFrames(gs) && EncodeAll(fs) == EncodeAll(gs)
    ensures fs == gs
  {
    hide Encode, IsFrame;
    assert EncodeAll(fs) + [] == EncodeAll(gs);
    PrefixFrames(fs, [], gs);
    EmptyEncoding(gs[|fs|..]);
  }
}
