/**
 WebSocket framing, sections 5.2 and 5.3 of RFC 6455: frames as bytes, the extraction of one
 frame from a buffer, and the connection that is fed pieces of a byte stream.
 */
module WsFraming {
  import opened Types
  import opened Bits
  import opened Bytes

  const CLOSE: nat := 8
  const PING: nat := 9
  const PONG: nat := 10

  // ---- Masking -----------------------------------------------------------------------------

  function XorByte(a: Byte, b: Byte): Byte {
    XorBound(a, b, 8);
    assert Pow2(8) == 256;
    Xor(a, b)
  }

  function Masked(payload: seq<Byte>, key: seq<Byte>): (r: seq<Byte>)
    requires |key| == 4
    ensures |r| == |payload|
  {
    seq(|payload|, i requires 0 <= i < |payload| => XorByte(payload[i], key[i % 4]))
  }

  lemma UnmaskUndoesMask(payload: seq<Byte>, key: seq<Byte>)
    requires |key| == 4
    ensures Masked(Masked(payload, key), key) == payload
  {
    forall i | 0 <= i < |payload| ensures Masked(Masked(payload, key), key)[i] == payload[i] {
      XorUndoes(payload[i], key[i % 4]);
    }
  }

  /** Each byte of a payload is combined with the byte of the key at its position modulo four. */
  lemma MaskBytes(payload: seq<Byte>, key: seq<Byte>, i: nat)
    requires |key| == 4 && i < |payload|
    ensures XorByte(payload[i], Masked(payload, key)[i]) == key[i % 4]
  {
    XorSwap(payload[i], key[i % 4]);
    XorSwap(payload[i], Xor(payload[i], key[i % 4]));
    XorUndoes(key[i % 4], payload[i]);
  }

  // ---- Frames ------------------------------------------------------------------------------

  /** How a frame states its payload length: 7, 7 + 16 or 7 + 64 bits. */
  datatype LengthForm = Short | Medium | Long

  datatype Frame = Frame(first: Byte, key: Option<seq<Byte>>, form: LengthForm, payload: seq<Byte>)

  predicate Fits(form: LengthForm, n: nat) {
    match form
    case Short => n <= 125
    case Medium => n <= 0xFFFF
    case Long => n < TWO_63
  }

  predicate WellFormed(f: Frame) {
    Fits(f.form, |f.payload|) && (f.key.Some? ==> |f.key.value| == 4)
  }

  function SmallestForm(n: nat): LengthForm {
    if n <= 125 then Short else if n <= 0xFFFF then Medium else Long
  }

  function LengthCode(form: LengthForm, n: nat): (c: nat)
    requires Fits(form, n)
    ensures c <= 127
  {
    match form
    case Short => n
    case Medium => 126
    case Long => 127
  }

  function Extension(form: LengthForm, n: nat): seq<Byte> {
    match form
    case Short => []
    case Medium => BigEndian(n, 2)
    case Long => BigEndian(n, 8)
  }

  function Encode(f: Frame): seq<Byte>
    requires WellFormed(f)
  {
    var n := |f.payload|;
    match f.key
    case None => [f.first, LengthCode(f.form, n)] + Extension(f.form, n) + [] + f.payload
    case Some(key) => [f.first, 128 + LengthCode(f.form, n)] + Extension(f.form, n) + key + Masked(f.payload, key)
  }

  /** A frame whose length form is the smallest one is as short as any frame with its content. */
  lemma SmallestIsMinimal(f: Frame)
    requires WellFormed(f)
    ensures WellFormed(f.(form := SmallestForm(|f.payload|)))
    ensures |Encode(f.(form := SmallestForm(|f.payload|)))| <= |Encode(f)|
    ensures |Encode(f.(form := SmallestForm(|f.payload|)))| == |Encode(f)| ==> f.form == SmallestForm(|f.payload|)
  {
  }

  // ---- Extracting one frame ------------------------------------------------------------------

  /** Oversized: the sum of header and length wraps around 64 bits, and the wrapped sum passes the size test. */
  datatype Extracted =
    | More
    | Whole(opcode: nat, payload: seq<Byte>, used: nat)
    | Oversized

  /** The payload length and the position after it, or None when the header is not complete. */
  function LengthField(buf: seq<Byte>): Option<(nat, nat)>
    requires |buf| >= 2
  {
    var n := buf[1] % 128;
    if n == 126 then
      if |buf| < 4 then None else Some((FromBigEndian(buf[2..4]), 4))
    else if n == 127 then
      if |buf| < 10 then None else Some((FromBigEndian(buf[2..10]), 10))
    else Some((n, 2))
  }

  predicate HasKey(buf: seq<Byte>)
    requires |buf| >= 2
  {
    buf[1] >= 128
  }

  /** Where the frame ends that the header announces. */
  function FrameEnd(buf: seq<Byte>): nat
    requires |buf| >= 2 && LengthField(buf).Some?
  {
    var (len, need) := LengthField(buf).value;
    if HasKey(buf) then need + 4 + len else need + len
  }

  function Extract(buf: seq<Byte>): (r: Extracted)
    ensures r.Whole? ==> 2 <= r.used <= |buf|
  {
    if |buf| < 2 || LengthField(buf).None? then More else
      var (len, need) := LengthField(buf).value;
      var start := if HasKey(buf) then need + 4 else need;
      if |buf| < Wrap(FrameEnd(buf)) then More
      else if FrameEnd(buf) >= TWO_64 then Oversized
      else
        var body := buf[start..start + len];
        Whole(buf[0] % 16, if HasKey(buf) then Masked(body, buf[need..start]) else body, start + len)
  }

  // ---- The size test ---------------------------------------------------------------------------

  lemma FrameEndBound(buf: seq<Byte>)
    requires |buf| >= 2 && LengthField(buf).Some?
    ensures FrameEnd(buf) < TWO_64 + 14
  {
    Pow256Values();
    assert Pow256(2) == 256 * Pow256(1);
    if |buf| >= 4 {
      FromBigEndianBound(buf[2..4]);
    }
    if |buf| >= 10 {
      FromBigEndianBound(buf[2..10]);
    }
    hide FromBigEndian;
    hide Pow256;
  }

  /** Exactly which buffers are oversized. */
  lemma OversizedIff(buf: seq<Byte>)
    requires |buf| >= 2 && LengthField(buf).Some?
    ensures Extract(buf).Oversized? <==> FrameEnd(buf) >= TWO_64 && |buf| >= FrameEnd(buf) - TWO_64
  {
    FrameEndBound(buf);
    hide LengthField;
    hide FrameEnd;
    hide Masked;
    assert FrameEnd(buf) >= TWO_64 ==> Wrap(FrameEnd(buf)) == FrameEnd(buf) - TWO_64;
    hide Wrap;
  }

  /** The size test tells whether the whole frame is there if and only if the buffer is not oversized. */
  lemma SizeTestIff(buf: seq<Byte>)
    requires 2 <= |buf| < TWO_63 && LengthField(buf).Some?
    ensures (|buf| < Wrap(FrameEnd(buf)) <==> |buf| < FrameEnd(buf)) <==> !Extract(buf).Oversized?
  {
    FrameEndBound(buf);
    OversizedIff(buf);
    hide LengthField;
    hide FrameEnd;
    hide Extract;
    assert FrameEnd(buf) >= TWO_64 ==> Wrap(FrameEnd(buf)) == FrameEnd(buf) - TWO_64;
    hide Wrap;
  }

  /** In particular it does so for a length with the top bit clear, as the standard requires. */
  lemma TopBitClear(buf: seq<Byte>)
    requires |buf| >= 2 && LengthField(buf).Some? && LengthField(buf).value.0 < TWO_63
    ensures |buf| < Wrap(FrameEnd(buf)) <==> |buf| < FrameEnd(buf)
    ensures !Extract(buf).Oversized?
  {
    OversizedIff(buf);
    hide Extract;
    hide FromBigEndian;
    hide Wrap;
  }

  /** Ten bytes that pass the size test while all of their payload is missing. */
  lemma LongestLength()
    ensures var buf: seq<Byte> := [0x82, 0x7F, 0xFF, 0xFF, 0xFF, 0xFF, 0xFF, 0xFF, 0xFF, 0xFF];
            && LengthField(buf) == Some((TWO_64 - 1, 10))
            && Wrap(FrameEnd(buf)) < |buf| < FrameEnd(buf)
            && Extract(buf).Oversized?
  {
    var buf: seq<Byte> := [0x82, 0x7F, 0xFF, 0xFF, 0xFF, 0xFF, 0xFF, 0xFF, 0xFF, 0xFF];
    AllOnes(buf[2..10]);
    Pow256Values();
    hide FromBigEndian;
    hide Pow256;
    assert LengthField(buf) == Some((TWO_64 - 1, 10));
    hide LengthField;
    assert FrameEnd(buf) == TWO_64 + 9 && Wrap(FrameEnd(buf)) == 9;
    hide Wrap;
    hide FrameEnd;
    OversizedIff(buf);
    hide Extract;
  }

  lemma {:induction false} AllOnes(bs: seq<Byte>)
    requires forall k :: 0 <= k < |bs| ==> bs[k] == 0xFF
    ensures FromBigEndian(bs) == Pow256(|bs|) - 1
    decreases |bs|
  {
    if bs != [] {
      AllOnes(bs[..|bs| - 1]);
    }
  }

  lemma LengthFieldStable(a: seq<Byte>, b: seq<Byte>)
    requires |a| >= 2 && LengthField(a).Some?
    ensures LengthField(a + b) == LengthField(a)
  {
    var ab := a + b;
    assert |a| >= 10 ==> ab[2..10] == a[2..10];
    assert |a| >= 4 ==> ab[2..4] == a[2..4];
    hide FromBigEndian;
  }

  lemma SliceOfPrefix(a: seq<Byte>, b: seq<Byte>, i: nat, j: nat)
    requires i <= j <= |a|
    ensures (a + b)[i..j] == a[i..j]
  {
  }

  /** Once a frame is complete, more input does not change it. */
  lemma ExtractStable(a: seq<Byte>, b: seq<Byte>)
    requires !Extract(a).More?
    ensures Extract(a + b) == Extract(a)
  {
    LengthFieldStable(a, b);
    hide LengthField;
    hide Masked;
    hide Wrap;
    var (len, need) := LengthField(a).value;
    var start := if HasKey(a) then need + 4 else need;
    if start + len < TWO_64 {
      SliceOfPrefix(a, b, start, start + len);
      SliceOfPrefix(a, b, need, start);
    }
  }

  // ---- A frame is extracted exactly when all of it has arrived --------------------------------

  lemma LengthAt(x: Byte, y: Byte, form: LengthForm, n: nat, more: seq<Byte>)
    requires Fits(form, n) && y % 128 == LengthCode(form, n)
    ensures LengthField([x, y] + Extension(form, n) + more) == Some((n, 2 + |Extension(form, n)|))
  {
    var ext := Extension(form, n);
    var buf := [x, y] + ext + more;
    assert buf[2..2 + |ext|] == ext;
    Pow256Values();
    match form
    case Short =>
    case Medium =>
      assert Pow256(2) == 256 * Pow256(1);
      BigEndianRoundTrip(n, 2);
      hide BigEndian;
      hide FromBigEndian;
    case Long =>
      BigEndianRoundTrip(n, 8);
      hide BigEndian;
      hide FromBigEndian;
  }

  lemma LengthReadBack(f: Frame, tail: seq<Byte>)
    requires WellFormed(f)
    ensures var buf := Encode(f) + tail;
            && |buf| >= 2 && HasKey(buf) == f.key.Some?
            && LengthField(buf) == Some((|f.payload|, 2 + |Extension(f.form, |f.payload|)|))
  {
    hide LengthField;
    hide Masked;
    hide Extension;
    var n := |f.payload|;
    var y: Byte := LengthCode(f.form, n) + if f.key.Some? then 128 else 0;
    var more := (match f.key case None => [] + f.payload case Some(key) => key + Masked(f.payload, key)) + tail;
    assert Encode(f) + tail == [f.first, y] + Extension(f.form, n) + more;
    LengthAt(f.first, y, f.form, n, more);
  }

  /** With its header read and its last byte there, a frame is extracted. */
  lemma ExtractKnown(buf: seq<Byte>, n: nat, need: nat)
    requires |buf| >= 2 && LengthField(buf) == Some((n, need))
    requires var end := (if HasKey(buf) then need + 4 else need) + n; end <= |buf| && end < TWO_64
    ensures var start := if HasKey(buf) then need + 4 else need;
            Extract(buf) == Whole(buf[0] % 16,
                                  if HasKey(buf) then Masked(buf[start..start + n], buf[need..start]) else buf[start..start + n],
                                  start + n)
  {
    hide LengthField;
    hide Masked;
  }

  lemma FourParts(h: seq<Byte>, k: seq<Byte>, m: seq<Byte>, t: seq<Byte>)
    ensures var s := h + k + m + t;
            && s[|h|..|h| + |k|] == k
            && s[|h| + |k|..|h| + |k| + |m|] == m
  {
  }

  lemma ExtractPlain(f: Frame, tail: seq<Byte>)
    requires WellFormed(f) && f.key.None?
    ensures Extract(Encode(f) + tail) == Whole(f.first % 16, f.payload, |Encode(f)|)
  {
    var n := |f.payload|;
    var h := [f.first, LengthCode(f.form, n)] + Extension(f.form, n);
    assert Encode(f) + tail == h + [] + f.payload + tail;
    LengthReadBack(f, tail);
    FourParts(h, [], f.payload, tail);
    hide Encode;
    hide Extension;
    hide LengthField;
    hide Extract;
    ExtractKnown(Encode(f) + tail, n, |h|);
  }

  lemma ExtractMasked(f: Frame, tail: seq<Byte>)
    requires WellFormed(f) && f.key.Some?
    ensures Extract(Encode(f) + tail) == Whole(f.first % 16, f.payload, |Encode(f)|)
  {
    var n, key := |f.payload|, f.key.value;
    var h := [f.first, 128 + LengthCode(f.form, n)] + Extension(f.form, n);
    assert Encode(f) + tail == h + key + Masked(f.payload, key) + tail;
    LengthReadBack(f, tail);
    UnmaskUndoesMask(f.payload, key);
    hide Masked;
    FourParts(h, key, Masked(f.payload, key), tail);
    hide Encode;
    hide Extension;
    hide LengthField;
    hide Extract;
    ExtractKnown(Encode(f) + tail, n, |h|);
  }

  lemma ExtractEncoded(f: Frame, tail: seq<Byte>)
    requires WellFormed(f)
    ensures Extract(Encode(f) + tail) == Whole(f.first % 16, f.payload, |Encode(f)|)
  {
    hide Extract;
    hide Encode;
    if f.key.None? {
      ExtractPlain(f, tail);
    } else {
      ExtractMasked(f, tail);
    }
  }

  // ---- The examples of section 5.7 -------------------------------------------------------------

  const HELLO: seq<Byte> := [0x48, 0x65, 0x6c, 0x6c, 0x6f]

  /** A single unmasked text frame. */
  lemma UnmaskedHello()
    ensures Extract([0x81, 0x05, 0x48, 0x65, 0x6c, 0x6c, 0x6f]) == Whole(1, HELLO, 7)
  {
    var buf: seq<Byte> := [0x81, 0x05, 0x48, 0x65, 0x6c, 0x6c, 0x6f];
    ExtractKnown(buf, 5, 2);
  }

  /** The bytes of the masked example, each combined with its byte of the key. */
  lemma HelloUnmasked()
    ensures Xor(0x7f, 0x37) == 0x48 && Xor(0x9f, 0xfa) == 0x65 && Xor(0x4d, 0x21) == 0x6c
    ensures Xor(0x51, 0x3d) == 0x6c && Xor(0x58, 0x37) == 0x6f
  {
    hide Xor;
    HighDigits();
    assert Xor(0x7f, 0x37) == 0x48 by {
      XorHalves(0x0f, 0x06);
      XorHalves(0x1f, 0x0d);
      XorHalves(0x3f, 0x1b);
      XorHalves(0x7f, 0x37);
    }
    assert Xor(0x9f, 0xfa) == 0x65 by {
      XorHalves(0x13, 0x1f);
      XorHalves(0x27, 0x3e);
      XorHalves(0x4f, 0x7d);
      XorHalves(0x9f, 0xfa);
    }
    assert Xor(0x4d, 0x21) == 0x6c by {
      XorHalves(0x09, 0x04);
      XorHalves(0x13, 0x08);
      XorHalves(0x26, 0x10);
      XorHalves(0x4d, 0x21);
    }
    assert Xor(0x51, 0x3d) == 0x6c by {
      XorHalves(0x0a, 0x07);
      XorHalves(0x14, 0x0f);
      XorHalves(0x28, 0x1e);
      XorHalves(0x51, 0x3d);
    }
    assert Xor(0x58, 0x37) == 0x6f by {
      XorHalves(0x0b, 0x06);
      XorHalves(0x16, 0x0d);
      XorHalves(0x2c, 0x1b);
      XorHalves(0x58, 0x37);
    }
  }

  lemma HighDigits()
    ensures Xor(7, 3) == 4 && Xor(9, 15) == 6 && Xor(4, 2) == 6 && Xor(5, 3) == 6
  {
    hide Xor;
    XorNothing(0);
    XorNothing(1);
    XorHalves(1, 1);
    XorHalves(2, 1);
    XorHalves(2, 3);
    XorHalves(3, 1);
    XorHalves(4, 2);
    XorHalves(4, 7);
    XorHalves(5, 3);
    XorHalves(7, 3);
    XorHalves(9, 15);
  }

  lemma HelloBody(body: seq<Byte>, key: seq<Byte>)
    requires body == [0x7f, 0x9f, 0x4d, 0x51, 0x58] && key == [0x37, 0xfa, 0x21, 0x3d]
    ensures Masked(body, key) == HELLO
  {
    HelloUnmasked();
    hide Xor;
  }

  lemma ExtractHello(buf: seq<Byte>, body: seq<Byte>, key: seq<Byte>)
    requires |buf| == 11 && buf[0] == 0x81 && buf[1] == 0x85 && buf[2..6] == key && buf[6..11] == body
    ensures Extract(buf) == Whole(1, Masked(body, key), 11)
  {
    hide Masked;
    hide FromBigEndian;
    assert LengthField(buf) == Some((5, 2));
    hide LengthField;
    ExtractKnown(buf, 5, 2);
  }

  /** A single masked text frame. */
  lemma MaskedHello()
    ensures Extract([0x81, 0x85, 0x37, 0xfa, 0x21, 0x3d, 0x7f, 0x9f, 0x4d, 0x51, 0x58]) == Whole(1, HELLO, 11)
  {
    var body: seq<Byte>, key: seq<Byte> := [0x7f, 0x9f, 0x4d, 0x51, 0x58], [0x37, 0xfa, 0x21, 0x3d];
    var buf: seq<Byte> := [0x81, 0x85, 0x37, 0xfa, 0x21, 0x3d, 0x7f, 0x9f, 0x4d, 0x51, 0x58];
    hide Masked;
    hide Extract;
    assert buf[2..6] == key && buf[6..11] == body;
    ExtractHello(buf, body, key);
    HelloBody(body, key);
  }

  /** 256 bytes in a binary frame. */
  lemma MediumExample(payload: seq<Byte>)
    requires |payload| == 256
    ensures Extract([0x82, 0x7E, 0x01, 0x00] + payload) == Whole(2, payload, 260)
  {
    var buf: seq<Byte> := [0x82, 0x7E, 0x01, 0x00] + payload;
    var none: seq<Byte> := [];
    assert FromBigEndian(none) == 0;
    hide FromBigEndian;
    hide Extract;
    FromBigEndianSnoc(none, 0x01);
    FromBigEndianSnoc(none + [0x01], 0x00);
    assert buf[2..4] == none + [0x01] + [0x00];
    ExtractKnown(buf, 256, 4);
    assert buf[4..260] == payload;
  }

  /** 65536 bytes in a binary frame. */
  lemma LongExample(payload: seq<Byte>)
    requires |payload| == 65536
    ensures Extract([0x82, 0x7F, 0x00, 0x00, 0x00, 0x00, 0x00, 0x01, 0x00, 0x00] + payload) == Whole(2, payload, 65546)
  {
    var buf: seq<Byte> := [0x82, 0x7F, 0x00, 0x00, 0x00, 0x00, 0x00, 0x01, 0x00, 0x00] + payload;
    EightDigits();
    hide FromBigEndian;
    hide Extract;
    assert buf[2..10] == [0x00, 0x00, 0x00, 0x00, 0x00, 0x01, 0x00, 0x00];
    ExtractKnown(buf, 65536, 10);
    assert buf[10..65546] == payload;
  }

  lemma EightDigits()
    ensures FromBigEndian([0x00, 0x00, 0x00, 0x00, 0x00, 0x01, 0x00, 0x00]) == 65536
  {
    var five: seq<Byte> := [0x00, 0x00, 0x00, 0x00, 0x00];
    Zeros(five);
    hide FromBigEndian;
    assert [0x00, 0x00, 0x00, 0x00, 0x00, 0x01, 0x00, 0x00] == five + [0x01] + [0x00] + [0x00];
    FromBigEndianSnoc(five, 0x01);
    FromBigEndianSnoc(five + [0x01], 0x00);
    FromBigEndianSnoc(five + [0x01] + [0x00], 0x00);
  }

  lemma {:induction false} Zeros(bs: seq<Byte>)
    requires forall k :: 0 <= k < |bs| ==> bs[k] == 0
    ensures FromBigEndian(bs) == 0
    decreases |bs|
  {
    if bs != [] {
      Zeros(bs[..|bs| - 1]);
    }
  }

  lemma FromBigEndianSnoc(bs: seq<Byte>, b: Byte)
    ensures FromBigEndian(bs + [b]) == 256 * FromBigEndian(bs) + b
  {
    assert (bs + [b])[..|bs|] == bs;
  }

  lemma NoEarlyFrame(f: Frame, k: nat)
    requires WellFormed(f) && k < |Encode(f)|
    ensures Extract(Encode(f)[..k]).More?
  {
    var a, b := Encode(f)[..k], Encode(f)[k..];
    assert a + b == Encode(f) == Encode(f) + [];
    ExtractEncoded(f, []);
    hide Encode;
    hide Extract;
    if !Extract(a).More? {
      ExtractStable(a, b);
    }
  }

  // ---- The whole stream ------------------------------------------------------------------------

  datatype Message = Message(opcode: nat, payload: seq<Byte>)

  datatype Status = Open | Closed | Broken

  /** Messages so far, bytes not consumed yet, and whether more input is read. */
  datatype Decoded = Decoded(messages: seq<Message>, rest: seq<Byte>, status: Status)

  const START: Decoded := Decoded([], [], Open)

  function Decode(buf: seq<Byte>): Decoded
    decreases |buf|
  {
    match Extract(buf)
    case More => Decoded([], buf, Open)
    case Oversized => Decoded([], buf, Broken)
    case Whole(opcode, payload, used) =>
      if opcode == CLOSE then Decoded([Message(opcode, payload)], buf[used..], Closed)
      else
        var on := Decode(buf[used..]);
        on.(messages := [Message(opcode, payload)] + on.messages)
  }

  function Feed(c: Decoded, piece: seq<Byte>): Decoded {
    if !c.status.Open? then c else
      var d := Decode(c.rest + piece);
      d.(messages := c.messages + d.messages)
  }

  function FeedAll(c: Decoded, pieces: seq<seq<Byte>>): Decoded
    decreases |pieces|
  {
    if pieces == [] then c else FeedAll(Feed(c, pieces[0]), pieces[1..])
  }

  function Joined(pieces: seq<seq<Byte>>): seq<Byte> {
    if pieces == [] then [] else pieces[0] + Joined(pieces[1..])
  }

  /** Same messages and status; what a finished connection leaves unread does not matter. */
  predicate Alike(c: Decoded, d: Decoded) {
    c.messages == d.messages && c.status == d.status && (c.status.Open? ==> c.rest == d.rest)
  }

  lemma {:induction false} DecodeOn(a: seq<Byte>, b: seq<Byte>)
    ensures Alike(Decode(a + b), Feed(Decode(a), b))
    decreases |a|
  {
    hide Extract;
    match Extract(a)
    case More =>
    case Oversized => ExtractStable(a, b);
    case Whole(opcode, payload, used) =>
      ExtractStable(a, b);
      assert (a + b)[used..] == a[used..] + b;
      if opcode != CLOSE {
        DecodeOn(a[used..], b);
        PrependAlike(Message(opcode, payload), Decode(a[used..]), b);
      }
  }

  lemma PrependAlike(m: Message, d: Decoded, b: seq<Byte>)
    ensures var c := d.(messages := [m] + d.messages);
            Feed(c, b) == Feed(d, b).(messages := [m] + Feed(d, b).messages)
  {
    hide Decode;
    if d.status.Open? {
      var more := Decode(d.rest + b).messages;
      assert [m] + d.messages + more == [m] + (d.messages + more);
    }
  }

  /** All complete frames have been taken from the unread bytes of an open connection. */
  ghost predicate Settled(c: Decoded) {
    c.status.Open? ==> Extract(c.rest).More?
  }

  lemma {:induction false} DecodeSettles(buf: seq<Byte>)
    ensures Settled(Decode(buf))
    decreases |buf|
  {
    hide Extract;
    if Extract(buf).Whole? && Extract(buf).opcode != CLOSE {
      DecodeSettles(buf[Extract(buf).used..]);
    }
  }

  /** Feeding two pieces one after the other is feeding them as one. */
  lemma FeedTwice(c: Decoded, a: seq<Byte>, b: seq<Byte>)
    ensures Alike(Feed(Feed(c, a), b), Feed(c, a + b))
  {
    hide Decode;
    if c.status.Open? {
      assert c.rest + a + b == c.rest + (a + b);
      DecodeOn(c.rest + a, b);
      var d := Decode(c.rest + a);
      if d.status.Open? {
        var more := Decode(d.rest + b).messages;
        assert c.messages + d.messages + more == c.messages + (d.messages + more);
      }
    }
  }

  /** However a stream is cut into pieces, the connection ends as if it had arrived at once. */
  lemma {:induction false} ChunkingIrrelevant(c: Decoded, pieces: seq<seq<Byte>>)
    requires Settled(c)
    ensures Alike(FeedAll(c, pieces), Feed(c, Joined(pieces)))
    decreases |pieces|
  {
    if pieces == [] {
      assert c.rest + [] == c.rest;
    } else {
      DecodeSettles(c.rest + pieces[0]);
      hide Decode;
      hide Extract;
      ChunkingIrrelevant(Feed(c, pieces[0]), pieces[1..]);
      FeedTwice(c, pieces[0], Joined(pieces[1..]));
    }
  }

  // ---- Frames through the stream -----------------------------------------------------------------

  function EncodeAll(fs: seq<Frame>): seq<Byte>
    requires forall k :: 0 <= k < |fs| ==> WellFormed(fs[k])
  {
    if fs == [] then [] else Encode(fs[0]) + EncodeAll(fs[1..])
  }

  function MessageOf(f: Frame): Message {
    Message(f.first % 16, f.payload)
  }

  /** The messages up to the first close, that one included. */
  function UpToClose(fs: seq<Frame>): seq<Message> {
    if fs == [] then []
    else if MessageOf(fs[0]).opcode == CLOSE then [MessageOf(fs[0])]
    else [MessageOf(fs[0])] + UpToClose(fs[1..])
  }

  predicate Closes(fs: seq<Frame>) {
    exists k :: 0 <= k < |fs| && MessageOf(fs[k]).opcode == CLOSE
  }

  lemma {:induction false} DecodeEncoded(fs: seq<Frame>)
    requires forall k :: 0 <= k < |fs| ==> WellFormed(fs[k])
    ensures var d := Decode(EncodeAll(fs));
            && d.messages == UpToClose(fs)
            && d.status == (if Closes(fs) then Closed else Open)
            && (d.status.Open? ==> d.rest == [])
    decreases |fs|
  {
    if fs != [] {
      var f, more := fs[0], EncodeAll(fs[1..]);
      ExtractEncoded(f, more);
      hide Encode;
      hide Extract;
      assert (Encode(f) + more)[|Encode(f)|..] == more;
      DecodeEncoded(fs[1..]);
      if MessageOf(f).opcode != CLOSE {
        assert Closes(fs) <==> Closes(fs[1..]) by {
          assert forall k :: 0 <= k < |fs| - 1 ==> fs[1..][k] == fs[k + 1];
          assert forall k :: 1 <= k < |fs| ==> fs[k] == fs[1..][k - 1];
        }
      }
    }
  }

  lemma EmptyIsSettled()
    ensures Settled(START)
  {
  }

  /**
   For every list of frames, masked or not and in any length form that fits, and for every way
   of cutting their bytes into pieces, exactly the original opcodes and payloads come out, up
   to the first close.
   */
  lemma FramesSurviveChunking(fs: seq<Frame>, pieces: seq<seq<Byte>>)
    requires forall k :: 0 <= k < |fs| ==> WellFormed(fs[k])
    requires Joined(pieces) == EncodeAll(fs)
    ensures var c := FeedAll(START, pieces);
            && c.messages == UpToClose(fs)
            && c.status == (if Closes(fs) then Closed else Open)
            && (c.status.Open? ==> c.rest == [])
  {
    hide Decode;
    hide Closes;
    hide Extract;
    hide FeedAll;
    hide Joined;
    hide EncodeAll;
    hide UpToClose;
    hide WellFormed;
    EmptyIsSettled();
    ChunkingIrrelevant(START, pieces);
    DecodeEncoded(fs);
    assert START.rest + Joined(pieces) == EncodeAll(fs);
  }
}
