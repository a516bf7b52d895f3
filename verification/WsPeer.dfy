/** The frame encoder and the receive loop of a connection, working on buffers in place. */
module WsPeers {
  import opened Types
  import opened Bytes
  import opened WsFraming

  // ---- Sending -----------------------------------------------------------------------------

  /** The value shifted right by k bytes. */
  function ShiftedBytes(v: nat, k: nat): nat {
    if k == 0 then v else ShiftedBytes(v, k - 1) / 256
  }

  lemma {:induction false} ShiftedOut(v: nat, k: nat)
    requires v < Pow256(k)
    ensures ShiftedBytes(v, k) == 0
  {
    ShiftedBelow(v, k, 0);
  }

  lemma {:induction false} ShiftedBelow(v: nat, j: nat, k: nat)
    requires v < Pow256(j + k)
    ensures ShiftedBytes(v, j) < Pow256(k)
    decreases j
  {
    if j > 0 {
      ShiftedBelow(v, j - 1, k + 1);
    }
  }

  /** The frame the server sends for a payload: final, not masked, in the smallest length form. */
  function ServerFrame(opcode: nat, payload: seq<Byte>): Frame
    requires opcode < 16
  {
    Frame(0x80 + opcode, None, SmallestForm(|payload|), payload)
  }

  method LongDigits(len: nat) returns (digits: seq<Byte>)
    requires len < TWO_64
    ensures digits == BigEndian(len, 8)
  {
    Pow256Values();
    ShiftedOut(len, 8);
    hide Pow256;
    digits := [];
    var i := 8;
    while i > 0
      invariant 0 <= i <= 8
      invariant digits == BigEndian(ShiftedBytes(len, i), 8 - i)
    {
      i := i - 1;
      digits := digits + [ShiftedBytes(len, i) % 256];
    }
  }

  lemma TwoDigits(len: nat)
    requires len <= 0xFFFF
    ensures BigEndian(len, 2) == [len / 256] + [len % 256]
  {
    assert BigEndian(len / 256, 1) == BigEndian(len / 256 / 256, 0) + [len / 256 % 256];
  }

  method LengthBytes(len: nat) returns (bytes: seq<Byte>)
    requires len < TWO_63
    ensures bytes == [LengthCode(SmallestForm(len), len)] + Extension(SmallestForm(len), len)
  {
    if len <= 125 {
      bytes := [len];
    } else if len <= 0xFFFF {
      TwoDigits(len);
      hide BigEndian;
      bytes := [126] + [len / 256] + [len % 256];
      assert bytes == [126] + ([len / 256] + [len % 256]);
    } else {
      var digits := LongDigits(len);
      hide BigEndian;
      bytes := [127] + digits;
    }
  }

  lemma EncodedBytes(opcode: nat, payload: seq<Byte>)
    requires opcode < 16 && |payload| < TWO_63
    ensures var form, n := SmallestForm(|payload|), |payload|;
            Encode(ServerFrame(opcode, payload)) == [0x80 + opcode] + ([LengthCode(form, n)] + Extension(form, n)) + payload
  {
    hide Extension;
    var form, n := SmallestForm(|payload|), |payload|;
    var x, y, e: seq<Byte> := 0x80 + opcode, LengthCode(form, n), Extension(form, n);
    assert [x, y] + e + [] == [x] + ([y] + e);
  }

  method EncodeServerFrame(out: seq<Byte>, text: bool, payload: seq<Byte>) returns (grown: seq<Byte>, size: nat)
    requires |payload| < TWO_63
    ensures grown == out + Encode(ServerFrame(if text then 1 else 2, payload))
    ensures size == |Encode(ServerFrame(if text then 1 else 2, payload))|
  {
    EncodedBytes(if text then 1 else 2, payload);
    hide Encode;
    hide Extension;
    var first: Byte := if text then 0x81 else 0x82;
    var bytes := LengthBytes(|payload|);
    grown := out + ([first] + bytes + payload);
    size := |grown| - |out|;
  }

  // ---- Receiving ---------------------------------------------------------------------------

  method Unmask(payload: array<Byte>, key: seq<Byte>)
    requires |key| == 4
    modifies payload
    ensures payload[..] == Masked(old(payload[..]), key)
  {
    hide XorByte;
    var i := 0;
    while i < payload.Length
      invariant 0 <= i <= payload.Length
      invariant forall k :: 0 <= k < i ==> payload[k] == XorByte(old(payload[k]), key[k % 4])
      invariant forall k :: i <= k < payload.Length ==> payload[k] == old(payload[k])
    {
      payload[i] := XorByte(payload[i], key[i % 4]);
      i := i + 1;
    }
  }

  /** A payload cut out of the buffer and unmasked. */
  method TakePayload(buf: seq<Byte>, need: nat, start: nat, len: nat) returns (body: seq<Byte>)
    requires (start == need || start == need + 4) && start + len <= |buf|
    ensures body == if start == need then buf[start..start + len] else Masked(buf[start..start + len], buf[need..start])
  {
    var bytes := new Byte[len](k requires 0 <= k < len => buf[start + k]);
    assert bytes[..] == buf[start..start + len];
    if start == need + 4 {
      Unmask(bytes, buf[need..start]);
    }
    body := bytes[..];
  }

  /** The payload length as the header states it; None while the header is incomplete. */
  method ReadLength(buf: seq<Byte>) returns (field: Option<(nat, nat)>)
    requires |buf| >= 2
    ensures field == LengthField(buf)
  {
    var len := buf[1] % 128;
    if len == 126 {
      if |buf| < 4 {
        return None;
      }
      var hi: nat, lo: nat := buf[2], buf[3];
      assert buf[2..4][..1] == [buf[2]] && FromBigEndian([buf[2]]) == 256 * FromBigEndian([]) + hi;
      return Some((hi * 256 + lo, 4));
    } else if len == 127 {
      if |buf| < 10 {
        return None;
      }
      var v: nat := 0;
      var i := 0;
      while i < 8
        invariant 0 <= i <= 8
        invariant v == FromBigEndian(buf[2..2 + i])
      {
        assert buf[2..3 + i][..i] == buf[2..2 + i];
        v := v * 256 + buf[2 + i];
        i := i + 1;
      }
      return Some((v, 10));
    }
    return Some((len, 2));
  }

  method ExtractFrame(buf: seq<Byte>) returns (r: Extracted)
    ensures r == Extract(buf)
  {
    hide LengthField;
    hide Wrap;
    hide Masked;
    if |buf| < 2 {
      return More;
    }
    var field := ReadLength(buf);
    if field.None? {
      return More;
    }
    var (len, need) := field.value;
    var start := if HasKey(buf) then need + 4 else need;
    if |buf| < Wrap(start + len) {
      return More;
    }
    if start + len >= TWO_64 {
      return Oversized;
    }
    var body := TakePayload(buf, need, start, len);
    return Whole(buf[0] % 16, body, start + len);
  }

  /** The status code of a close frame, 1000 for a normal closure, as its payload. */
  const NORMAL_CLOSURE: seq<Byte> := [1000 / 256, 1000 % 256]

  /** What a message makes the server send: a pong with its payload for a ping, a close for a close. */
  function Reply(m: Message): seq<Byte>
    requires |m.payload| < TWO_63
  {
    if m.opcode == PING then Encode(ServerFrame(PONG, m.payload))
    else if m.opcode == CLOSE then Encode(ServerFrame(CLOSE, NORMAL_CLOSURE))
    else []
  }

  function Replies(ms: seq<Message>): seq<Byte>
    requires forall k :: 0 <= k < |ms| ==> |ms[k].payload| < TWO_63
  {
    if ms == [] then [] else
      Replies(ms[..|ms| - 1]) + Reply(ms[|ms| - 1])
  }

  /** Text and binary messages go to the application. */
  function Delivered(ms: seq<Message>): seq<Message> {
    if ms == [] then [] else
      var m := ms[|ms| - 1];
      Delivered(ms[..|ms| - 1]) + if m.opcode == 1 || m.opcode == 2 then [m] else []
  }

  ghost predicate Short64(ms: seq<Message>) {
    forall k :: 0 <= k < |ms| ==> |ms[k].payload| < TWO_63
  }

  /** The bytes of a server frame. */
  lemma ServerFrameBytes(opcode: nat, payload: seq<Byte>)
    requires opcode < 16 && |payload| < TWO_63
    ensures var n, bytes := |payload|, Encode(ServerFrame(opcode, payload));
            && (n <= 125 ==> bytes == [0x80 + opcode, n] + payload)
            && (125 < n <= 65535 ==> bytes == [0x80 + opcode, 126, n / 256, n % 256] + payload)
            && (n > 65535 ==>
                  && |bytes| == 10 + n && bytes[..2] == [0x80 + opcode, 127] && bytes[10..] == payload
                  && forall k :: 0 <= k < 8 ==> Pow256(k) > 0 && bytes[9 - k] == n / Pow256(k) % 256)
  {
    var n, bytes := |payload|, Encode(ServerFrame(opcode, payload));
    EncodedBytes(opcode, payload);
    hide Encode;
    if n > 65535 {
      forall k | 0 <= k < 8 ensures Pow256(k) > 0 && bytes[9 - k] == n / Pow256(k) % 256 {
        BigEndianAt(n, 8, k);
      }
    } else if n > 125 {
      TwoDigits(n);
      hide BigEndian;
      assert [0x80 + opcode] + ([126] + ([n / 256] + [n % 256])) == [0x80 + opcode, 126, n / 256, n % 256];
    }
  }

  /** The close frame the server sends, and a pong of a short payload. */
  lemma ControlBytes(payload: seq<Byte>)
    requires |payload| < TWO_63
    ensures Encode(ServerFrame(CLOSE, NORMAL_CLOSURE)) == [0x88, 0x02, 0x03, 0xE8]
    ensures ServerFrame(PONG, payload) == Frame(0x8A, None, SmallestForm(|payload|), payload)
    ensures |payload| <= 125 ==> Encode(ServerFrame(PONG, payload)) == [0x8A, |payload|] + payload
  {
    ServerFrameBytes(CLOSE, NORMAL_CLOSURE);
    ServerFrameBytes(PONG, payload);
    hide Encode;
  }

  lemma OneMore(ms: seq<Message>, m: Message)
    requires Short64(ms) && |m.payload| < TWO_63
    ensures Short64(ms + [m]) && Replies(ms + [m]) == Replies(ms) + Reply(m)
    ensures Delivered(ms + [m]) == Delivered(ms) + if m.opcode == 1 || m.opcode == 2 then [m] else []
  {
    hide Reply;
    assert (ms + [m])[..|ms|] == ms;
  }

  class Peer {
    var frame: seq<Byte>
    var status: Status
    var sent: seq<Byte>
    var delivered: seq<Message>
    ghost var messages: seq<Message>

    ghost function View(): Decoded
      reads this
    {
      Decoded(messages, frame, status)
    }

    ghost predicate Valid()
      reads this
    {
      Short64(messages) && sent == Replies(messages) && delivered == Delivered(messages)
    }

    constructor ()
      ensures Valid() && View() == START
    {
      frame, status, sent, delivered, messages := [], Open, [], [], [];
    }

    /** Send a control frame: a binary frame with its first byte replaced. */
    method SendControl(opcode: nat, payload: seq<Byte>)
      requires opcode < 16 && |payload| < TWO_63
      modifies this`sent
      ensures sent == old(sent) + Encode(ServerFrame(opcode, payload))
    {
      var frame, n := EncodeServerFrame([], false, payload);
      OpcodePatch(opcode, payload);
      assert frame == Encode(ServerFrame(2, payload));
      sent := sent + frame[0 := 0x80 + opcode];
    }

    /** React to one message. */
    method Dispatch(opcode: nat, payload: seq<Byte>)
      requires Valid() && |payload| < TWO_63
      modifies this
      ensures Valid() && frame == old(frame)
      ensures messages == old(messages) + [Message(opcode, payload)]
      ensures status == if opcode == 8 then Closed else old(status)
      ensures opcode == 8 ==> sent == old(sent) + [0x88, 0x02, 0x03, 0xE8]
      ensures opcode == 9 ==> sent == old(sent) + Encode(Frame(0x8A, None, SmallestForm(|payload|), payload))
      ensures opcode == 9 && |payload| <= 125 ==> sent == old(sent) + ([0x8A, |payload|] + payload)
      ensures opcode != 8 && opcode != 9 ==> sent == old(sent)
      ensures delivered == old(delivered) + if opcode == 1 || opcode == 2 then [Message(opcode, payload)] else []
    {
      ControlBytes(payload);
      hide Encode;
      hide ServerFrame;
      hide Replies;
      hide Delivered;
      OneMore(messages, Message(opcode, payload));
      messages := messages + [Message(opcode, payload)];
      if opcode == CLOSE {
        SendControl(CLOSE, NORMAL_CLOSURE);
        status := Closed;
      } else if opcode == PING {
        SendControl(PONG, payload);
      } else if opcode == 1 || opcode == 2 {
        delivered := delivered + [Message(opcode, payload)];
      }
    }

    /** Append what was read and take every complete frame out of the buffer, up to a close. */
    method Receive(piece: seq<Byte>)
      requires Valid() && status.Open? && |frame| + |piece| < TWO_63
      modifies this
      ensures Valid() && View() == Feed(old(View()), piece)
    {
      hide Extract;
      hide Decode;
      frame := frame + piece;
      assert frame + [] == frame;
      ghost var goal := Feed(old(View()), piece);
      while status.Open?
        invariant Valid() && |frame| < TWO_63
        invariant goal == Feed(View(), [])
        decreases |frame|
      {
        var r := ExtractFrame(frame);
        FeedTurn(View());
        if r.More? {
          break;
        }
        if r.Oversized? {
          status := Broken;
          break;
        }
        PayloadFits(frame);
        frame := frame[r.used..];
        Dispatch(r.opcode, r.payload);
      }
    }
  }

  /** One turn of the receive loop. */
  lemma FeedTurn(c: Decoded)
    requires c.status.Open?
    ensures match Extract(c.rest)
            case More => Feed(c, []) == c
            case Oversized => Feed(c, []) == c.(status := Broken)
            case Whole(opcode, payload, used) =>
              var d := c.(rest := c.rest[used..], messages := c.messages + [Message(opcode, payload)]);
              Feed(c, []) == Feed(if opcode == CLOSE then d.(status := Closed) else d, [])
  {
    hide Extract;
    assert c.rest + [] == c.rest;
    if Extract(c.rest).Whole? {
      var r := Extract(c.rest);
      var rest := c.rest[r.used..];
      assert rest + [] == rest;
      assert c.messages + ([Message(r.opcode, r.payload)] + Decode(rest).messages) ==
             c.messages + [Message(r.opcode, r.payload)] + Decode(rest).messages;
    }
  }

  lemma PayloadFits(buf: seq<Byte>)
    requires Extract(buf).Whole?
    ensures |Extract(buf).payload| <= |buf|
  {
  }

  /** Frames of different opcodes differ in their first byte only. */
  lemma OpcodePatch(opcode: nat, payload: seq<Byte>)
    requires opcode < 16 && |payload| < TWO_63
    ensures Encode(ServerFrame(2, payload))[0 := 0x80 + opcode] == Encode(ServerFrame(opcode, payload))
  {
    hide Extension;
  }
}
