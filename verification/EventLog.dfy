/**
 The event log: typed records written one after the other behind a 16-byte header, and the
 reader that runs over the file until it hits its end.
 */
module EventLogs {
  import opened Types
  import opened Bytes

  const MAGIC: nat := 0x54545631
  const VERSION: nat := 1
  const HEADER_SIZE: nat := 16

  const TRADE: Byte := 7

  datatype OrderPayload = OrderPayload(
    orderId: nat, trader: nat, instrument: nat, side: Byte, kind: Byte, price: int, qty: int)

  datatype Record = Record(
    kind: Byte, sequence: nat, timestamp: nat, order: OrderPayload, trade: Trade, reason: seq<Byte>)

  const NO_ORDER: OrderPayload := OrderPayload(0, 0, 0, 0, 1, 0, 0)
  const NO_TRADE: Trade := Trade(0, 0, 0, 0, 0, 0, 0, 0, 0)

  // ---- Fixed-width fields -----------------------------------------------------------------

  /** Widths in bytes of the fields that follow kind, sequence and timestamp. */
  function Widths(kind: Byte): seq<nat> {
    if kind == TRADE then [8, 8, 8, 8, 8, 8, 8, 8] else [8, 8, 1, 1, 8, 8]
  }

  function Values(r: Record): (vs: seq<nat>)
    ensures |vs| == |Widths(r.kind)|
  {
    if r.kind == TRADE then
      [r.trade.id, r.trade.instrument, r.trade.buyOrder, r.trade.sellOrder, r.trade.buyTrader, r.trade.sellTrader,
       Wrap(r.trade.price), Wrap(r.trade.quantity)]
    else
      [r.order.orderId, r.order.instrument, r.order.side, r.order.kind, Wrap(r.order.price), Wrap(r.order.qty)]
  }

  function WriteFields(vs: seq<nat>, ws: seq<nat>): (bs: seq<Byte>)
    requires |vs| == |ws|
    ensures |bs| == Sum(ws)
  {
    if ws == [] then [] else LittleEndian(vs[0], ws[0]) + WriteFields(vs[1..], ws[1..])
  }

  function Sum(ws: seq<nat>): nat {
    if ws == [] then 0 else ws[0] + Sum(ws[1..])
  }

  ghost predicate Fit(vs: seq<nat>, ws: seq<nat>) {
    |vs| == |ws| && forall i :: 0 <= i < |ws| ==> vs[i] < Pow256(ws[i])
  }

  // ---- Writing -----------------------------------------------------------------------------

  function Head(r: Record): seq<Byte> {
    WriteFields([r.kind, r.sequence, r.timestamp], [1, 8, 8])
  }

  function Tail(r: Record): seq<Byte> {
    if r.kind == TRADE then [] else LittleEndian(|r.reason|, 4) + r.reason
  }

  function Encode(r: Record): (bs: seq<Byte>)
    ensures |bs| > 0
  {
    Head(r) + WriteFields(Values(r), Widths(r.kind)) + Tail(r)
  }

  function EncodeAll(rs: seq<Record>): seq<Byte> {
    if rs == [] then [] else Encode(rs[0]) + EncodeAll(rs[1..])
  }

  const HEADER: seq<Byte> := LittleEndian(MAGIC, 8) + LittleEndian(VERSION, 8)

  /** Every field is within its width; the reason fits a 32-bit length. */
  predicate Encodable(r: Record) {
    && r.sequence < TWO_64 && r.timestamp < TWO_64 && |r.reason| < TWO_32
    && r.order.orderId < TWO_64 && r.order.instrument < TWO_64
    && Signed(r.order.price) && Signed(r.order.qty)
    && r.trade.id < TWO_64 && r.trade.instrument < TWO_64 && r.trade.buyOrder < TWO_64 && r.trade.sellOrder < TWO_64
    && r.trade.buyTrader < TWO_64 && r.trade.sellTrader < TWO_64 && Signed(r.trade.price) && Signed(r.trade.quantity)
  }

  predicate Signed(v: int) {
    -TWO_63 <= v < TWO_63
  }

  /** What a record keeps of its fields on disk; the rest come back as defaults. */
  function Persisted(r: Record): Record {
    if r.kind == TRADE then Record(r.kind, r.sequence, r.timestamp, NO_ORDER, r.trade.(sequence := 0), [])
    else Record(r.kind, r.sequence, r.timestamp, r.order.(trader := 0), NO_TRADE, r.reason)
  }

  // ---- Reading -----------------------------------------------------------------------------

  /** The bytes not yet read, and whether a read has come up short. */
  datatype Reader = Reader(rest: seq<Byte>, eof: bool)

  /** Read n bytes; a short read delivers what there is and raises end-of-file. */
  function Take(r: Reader, n: nat): (seq<Byte>, Reader) {
    if n <= |r.rest| then (r.rest[..n], Reader(r.rest[n..], r.eof)) else (r.rest, Reader([], true))
  }

  function TakeUint(r: Reader, n: nat): (nat, Reader) {
    var (bs, on) := Take(r, n);
    (FromLittleEndian(bs), on)
  }

  function ReadFields(r: Reader, ws: seq<nat>): (res: (seq<nat>, Reader))
    ensures |res.0| == |ws|
    decreases |ws|
  {
    if ws == [] then ([], r) else
      var (v, on) := TakeUint(r, ws[0]);
      var (vs, end) := ReadFields(on, ws[1..]);
      ([v] + vs, end)
  }

  function Build(kind: Byte, sequence: nat, timestamp: nat, vs: seq<nat>, reason: seq<Byte>): (r: Record)
    requires |vs| == |Widths(kind)|
    ensures r.kind == kind
  {
    if kind == TRADE then
      Record(kind, sequence, timestamp, NO_ORDER,
             Trade(vs[0], vs[1], vs[2], vs[3], vs[4], vs[5], FromPattern(vs[6]), FromPattern(vs[7]), 0), [])
    else
      Record(kind, sequence, timestamp,
             OrderPayload(vs[0], 0, vs[1], vs[2] % 256, vs[3] % 256, FromPattern(vs[4]), FromPattern(vs[5])),
             NO_TRADE, reason)
  }

  /** A string of n zero bytes into which s was read. */
  function Padded(s: seq<Byte>, n: nat): (p: seq<Byte>)
    ensures |s| == n ==> p == s
  {
    if |s| >= n then s else s + seq(n - |s|, _ => 0)
  }

  function ReadReason(r: Reader): (seq<Byte>, Reader) {
    var (n, on) := TakeUint(r, 4);
    if n == 0 then ([], on) else
      var (s, last) := Take(on, n);
      (Padded(s, n), last)
  }

  function ReadRecord(r: Reader): (Record, Reader) {
    var (head, r1) := ReadFields(r, [1, 8, 8]);
    var kind: Byte := head[0] % 256;
    var (vs, r2) := ReadFields(r1, Widths(kind));
    var (reason, r3) := if kind == TRADE then ([], r2) else ReadReason(r2);
    (Build(kind, head[1], head[2], vs, reason), r3)
  }

  /** Records until a read makes no progress or meets the end of the file. */
  function ReadRecords(r: Reader): seq<Record>
    decreases |r.rest|
  {
    if r.eof then [] else
      var (rec, on) := ReadRecord(r);
      if |on.rest| >= |r.rest| then [] else if on.eof then [rec] else [rec] + ReadRecords(on)
  }

  function ReadAll(file: seq<Byte>): seq<Record> {
    var (h, r) := ReadFields(Reader(file, false), [8, 8]);
    if h[0] != MAGIC || h[1] != VERSION then [] else ReadRecords(r)
  }

  // ---- Round trip ----------------------------------------------------------------------------

  lemma TakeSplit(a: seq<Byte>, b: seq<Byte>)
    ensures Take(Reader(a + b, false), |a|) == (a, Reader(b, false))
  {
    assert (a + b)[..|a|] == a && (a + b)[|a|..] == b;
  }

  lemma {:induction false} ReadWritten(vs: seq<nat>, ws: seq<nat>, more: seq<Byte>)
    requires Fit(vs, ws)
    ensures ReadFields(Reader(WriteFields(vs, ws) + more, false), ws) == (vs, Reader(more, false))
    decreases |ws|
  {
    if ws == [] {
      assert WriteFields(vs, ws) + more == more;
    } else {
      var a, b := LittleEndian(vs[0], ws[0]), WriteFields(vs[1..], ws[1..]);
      assert WriteFields(vs, ws) + more == a + (b + more);
      TakeSplit(a, b + more);
      hide Take;
      LittleEndianRoundTrip(vs[0], ws[0]);
      ReadWritten(vs[1..], ws[1..], more);
      assert [vs[0]] + vs[1..] == vs;
    }
  }

  lemma ReasonReadBack(s: seq<Byte>, more: seq<Byte>)
    requires |s| < TWO_32
    ensures ReadReason(Reader(LittleEndian(|s|, 4) + s + more, false)) == (s, Reader(more, false))
  {
    Pow256Values();
    LittleEndianRoundTrip(|s|, 4);
    var a := LittleEndian(|s|, 4);
    assert a + s + more == a + (s + more);
    TakeSplit(a, s + more);
    TakeSplit(s, more);
    hide Take;
    hide LittleEndian;
    hide FromLittleEndian;
    assert s == [] ==> s + more == more;
  }

  lemma ValuesFit(r: Record)
    requires Encodable(r)
    ensures Fit([r.kind, r.sequence, r.timestamp], [1, 8, 8]) && Fit(Values(r), Widths(r.kind))
  {
    Pow256Values();
  }

  lemma BuildBack(r: Record)
    requires Encodable(r)
    ensures Build(r.kind, r.sequence, r.timestamp, Values(r), if r.kind == TRADE then [] else r.reason) == Persisted(r)
  {
    PatternRoundTrip(r.trade.price);
    PatternRoundTrip(r.trade.quantity);
    PatternRoundTrip(r.order.price);
    PatternRoundTrip(r.order.qty);
  }

  lemma ReadEncoded(r: Record, more: seq<Byte>)
    requires Encodable(r)
    ensures ReadRecord(Reader(Encode(r) + more, false)) == (Persisted(r), Reader(more, false))
  {
    hide Fit;
    hide Build;
    hide WriteFields;
    hide ReadFields;
    hide Values;
    hide Widths;
    hide ReadReason;
    hide ReadRecord;
    hide Persisted;
    hide LittleEndian;
    hide Tail;
    hide Encodable;
    ValuesFit(r);
    BuildBack(r);
    var fixed := WriteFields(Values(r), Widths(r.kind));
    assert Encode(r) + more == Head(r) + (fixed + (Tail(r) + more));
    ReadWritten([r.kind, r.sequence, r.timestamp], [1, 8, 8], fixed + (Tail(r) + more));
    ReadWritten(Values(r), Widths(r.kind), Tail(r) + more);
    TailReadBack(r, more);
    ReadParts(Reader(Encode(r) + more, false), r.kind, r.sequence, r.timestamp, Reader(fixed + (Tail(r) + more), false),
              Values(r), Reader(Tail(r) + more, false));
  }

  /** A record is read in three parts: the head, the fields of its kind, and the reason unless it is a trade. */
  lemma ReadParts(r0: Reader, kind: Byte, sequence: nat, timestamp: nat, r1: Reader, vs: seq<nat>, r2: Reader)
    requires ReadFields(r0, [1, 8, 8]) == ([kind, sequence, timestamp], r1)
    requires ReadFields(r1, Widths(kind)) == (vs, r2)
    ensures |vs| == |Widths(kind)|
    ensures kind == TRADE ==> ReadRecord(r0) == (Build(kind, sequence, timestamp, vs, []), r2)
    ensures kind != TRADE ==>
              ReadRecord(r0) == (Build(kind, sequence, timestamp, vs, ReadReason(r2).0), ReadReason(r2).1)
  {
    hide ReadFields;
    hide ReadReason;
    hide Build;
    hide Widths;
  }

  lemma TailReadBack(r: Record, more: seq<Byte>)
    requires Encodable(r)
    ensures r.kind == TRADE ==> Tail(r) + more == more
    ensures r.kind != TRADE ==> ReadReason(Reader(Tail(r) + more, false)) == (r.reason, Reader(more, false))
  {
    if r.kind != TRADE {
      ReasonReadBack(r.reason, more);
    }
  }

  function PersistedAll(rs: seq<Record>): seq<Record> {
    seq(|rs|, i requires 0 <= i < |rs| => Persisted(rs[i]))
  }

  /** At the very end of the file a read makes no progress. */
  lemma ReadNothing()
    ensures ReadRecords(Reader([], false)) == []
  {
  }

  lemma ReadEncodedFirst(r: Record, more: seq<Byte>)
    requires Encodable(r)
    ensures ReadRecords(Reader(Encode(r) + more, false)) == [Persisted(r)] + ReadRecords(Reader(more, false))
  {
    ReadEncoded(r, more);
    hide ReadRecord;
    hide Encode;
  }

  lemma {:induction false} ReadEncodedAll(rs: seq<Record>, more: seq<Byte>)
    requires forall i :: 0 <= i < |rs| ==> Encodable(rs[i])
    ensures ReadRecords(Reader(EncodeAll(rs) + more, false)) == PersistedAll(rs) + ReadRecords(Reader(more, false))
    decreases |rs|
  {
    hide ReadRecords;
    hide Encode;
    hide Persisted;
    if rs == [] {
      assert EncodeAll(rs) + more == more;
    } else {
      var later := EncodeAll(rs[1..]) + more;
      assert EncodeAll(rs) + more == Encode(rs[0]) + later;
      ReadEncodedFirst(rs[0], later);
      ReadEncodedAll(rs[1..], more);
      assert PersistedAll(rs) == [Persisted(rs[0])] + PersistedAll(rs[1..]);
    }
  }

  lemma HeaderReadBack(body: seq<Byte>)
    ensures ReadAll(HEADER + body) == ReadRecords(Reader(body, false))
  {
    Pow256Values();
    ReadWritten([MAGIC, VERSION], [8, 8], body);
    hide ReadFields;
    assert [MAGIC, VERSION][1..] == [VERSION] && [8, 8][1..] == [8];
    assert [VERSION][1..] == [] && [8][1..] == [];
    assert WriteFields([VERSION], [8]) == LittleEndian(VERSION, 8) + [];
    assert WriteFields([MAGIC, VERSION], [8, 8]) == HEADER;
  }

  /** Reading a freshly written log returns exactly the appended records, on all persisted fields. */
  lemma LogRoundTrip(rs: seq<Record>)
    requires forall i :: 0 <= i < |rs| ==> Encodable(rs[i])
    ensures ReadAll(HEADER + EncodeAll(rs)) == PersistedAll(rs)
  {
    HeaderReadBack(EncodeAll(rs));
    ReadEncodedAll(rs, []);
    ReadNothing();
    assert EncodeAll(rs) + [] == EncodeAll(rs);
  }

  // ---- The layout in bytes --------------------------------------------------------------------

  lemma HeaderBytes()
    ensures HEADER == [0x31, 0x56, 0x54, 0x54, 0, 0, 0, 0, 1, 0, 0, 0, 0, 0, 0, 0]
  {
    hide LittleEndian;
    assert MAGIC == 0x31 + 0x100 * 0x56 + 0x1_0000 * 0x54 + 0x100_0000 * 0x54;
    SmallWord(MAGIC, 0x31, 0x56, 0x54, 0x54);
    SmallWord(VERSION, 1, 0, 0, 0);
  }

  lemma SmallWord(v: nat, a: Byte, b: Byte, c: Byte, d: Byte)
    requires v == a + 0x100 * b + 0x1_0000 * c + 0x100_0000 * d
    ensures LittleEndian(v, 8) == [a, b, c, d, 0, 0, 0, 0]
  {
    var v1, v2 := b + 0x100 * c + 0x1_0000 * d, c + 0x100 * d;
    assert v / 256 == v1 && v % 256 == a && v1 / 256 == v2 && v1 % 256 == b && v2 / 256 == d && v2 % 256 == c;
    Lowest(v, 8);
    Lowest(v1, 7);
    Lowest(v2, 6);
    Lowest(d, 5);
    Lowest(0, 4);
    Lowest(0, 3);
    Lowest(0, 2);
    Lowest(0, 1);
    assert LittleEndian(0, 0) == [];
    hide LittleEndian;
  }

  lemma Lowest(v: nat, n: nat)
    requires n > 0
    ensures LittleEndian(v, n) == [v % 256] + LittleEndian(v / 256, n - 1)
  {
  }

  function Word(v: nat): seq<Byte> {
    LittleEndian(v, 8)
  }

  /** The fields of a trade record in file order. */
  lemma TradeLayout(r: Record)
    requires r.kind == 7
    ensures Encode(r) ==
            [7] + Word(r.sequence) + Word(r.timestamp) + Word(r.trade.id) + Word(r.trade.instrument)
            + Word(r.trade.buyOrder) + Word(r.trade.sellOrder) + Word(r.trade.buyTrader) + Word(r.trade.sellTrader)
            + Word(Wrap(r.trade.price)) + Word(Wrap(r.trade.quantity))
  {
    var t := r.trade;
    WriteHead(r);
    hide Wrap;
    WriteFour(t.id, t.instrument, t.buyOrder, t.sellOrder);
    WriteFour(t.buyTrader, t.sellTrader, Wrap(t.price), Wrap(t.quantity));
    var vs, us := [t.id, t.instrument, t.buyOrder, t.sellOrder], [t.buyTrader, t.sellTrader, Wrap(t.price), Wrap(t.quantity)];
    WriteFieldsConcat(vs, [8, 8, 8, 8], us, [8, 8, 8, 8]);
    assert Values(r) == vs + us && Widths(7) == [8, 8, 8, 8] + [8, 8, 8, 8];
    hide WriteFields;
    hide LittleEndian;
  }

  /** The fields of every other record. */
  lemma OrderLayout(r: Record)
    requires r.kind != 7
    ensures Encode(r) ==
            [r.kind] + Word(r.sequence) + Word(r.timestamp) + Word(r.order.orderId) + Word(r.order.instrument)
            + [r.order.side] + [r.order.kind] + Word(Wrap(r.order.price)) + Word(Wrap(r.order.qty))
            + LittleEndian(|r.reason|, 4) + r.reason
  {
    WriteHead(r);
    OrderFields(r);
    hide Wrap;
    hide WriteFields;
    hide Word;
    hide LittleEndian;
    hide Values;
    hide Widths;
  }

  lemma OrderFields(r: Record)
    requires r.kind != 7
    ensures WriteFields(Values(r), Widths(r.kind)) ==
            Word(r.order.orderId) + Word(r.order.instrument) + [r.order.side] + [r.order.kind]
            + Word(Wrap(r.order.price)) + Word(Wrap(r.order.qty))
  {
    hide Wrap;
    hide LittleEndian;
    var o := r.order;
    OneByte(o.side);
    OneByte(o.kind);
    WritePair(o.orderId, o.instrument, 8, 8);
    WritePair(o.side, o.kind, 1, 1);
    WritePair(Wrap(o.price), Wrap(o.qty), 8, 8);
    hide WriteFields;
    var us, ws := [o.side, o.kind] + [Wrap(o.price), Wrap(o.qty)], [1, 1] + [8, 8];
    WriteFieldsConcat([o.side, o.kind], [1, 1], [Wrap(o.price), Wrap(o.qty)], [8, 8]);
    WriteFieldsConcat([o.orderId, o.instrument], [8, 8], us, ws);
    assert Values(r) == [o.orderId, o.instrument] + us && Widths(r.kind) == [8, 8] + ws;
  }

  lemma OneByte(b: Byte)
    ensures LittleEndian(b, 1) == [b]
  {
    assert LittleEndian(b / 256, 0) == [];
  }

  lemma WriteNext(vs: seq<nat>, ws: seq<nat>)
    requires |vs| == |ws| > 0
    ensures WriteFields(vs, ws) == LittleEndian(vs[0], ws[0]) + WriteFields(vs[1..], ws[1..])
  {
  }

  lemma WritePair(a: nat, b: nat, v: nat, w: nat)
    ensures WriteFields([a, b], [v, w]) == LittleEndian(a, v) + LittleEndian(b, w)
  {
    WriteNext([a, b], [v, w]);
    WriteNext([b], [w]);
    assert [a, b][1..] == [b] && [v, w][1..] == [w] && [b][1..] == [] && [w][1..] == [];
    assert WriteFields([], []) == [];
  }

  lemma WriteFour(a: nat, b: nat, c: nat, d: nat)
    ensures WriteFields([a, b, c, d], [8, 8, 8, 8]) == Word(a) + Word(b) + Word(c) + Word(d)
  {
    hide LittleEndian;
    WritePair(a, b, 8, 8);
    WritePair(c, d, 8, 8);
    WriteFieldsConcat([a, b], [8, 8], [c, d], [8, 8]);
    hide WriteFields;
    assert [a, b] + [c, d] == [a, b, c, d] && [8, 8] + [8, 8] == [8, 8, 8, 8];
  }

  lemma WriteHead(r: Record)
    ensures Head(r) == [r.kind] + Word(r.sequence) + Word(r.timestamp)
  {
    OneByte(r.kind);
    hide LittleEndian;
    var vs, ws := [r.kind, r.sequence, r.timestamp], [1, 8, 8];
    WriteNext(vs, ws);
    WritePair(r.sequence, r.timestamp, 8, 8);
    hide WriteFields;
    assert vs[1..] == [r.sequence, r.timestamp] && ws[1..] == [8, 8];
  }

  /** A file that does not begin with the header holds no records. */
  lemma ForeignFile(file: seq<Byte>)
    requires |file| >= 16 && file[..16] != HEADER
    ensures ReadAll(file) == []
  {
    var r := Reader(file, false);
    var a, b := file[..8], file[8..16];
    assert file[..16] == a + b;
    LittleEndianBack(a);
    LittleEndianBack(b);
    assert [8, 8][1..] == [8] && [8][1..] == [];
    assert file[8..][..8] == b;
    assert TakeUint(r, 8).0 == FromLittleEndian(a);
    assert TakeUint(TakeUint(r, 8).1, 8).0 == FromLittleEndian(b);
    hide LittleEndian;
    hide FromLittleEndian;
    hide ReadRecords;
  }

  // ---- A log cut short -----------------------------------------------------------------------

  predicate Exhausted(r: Reader) {
    r.rest == [] && r.eof
  }

  lemma {:induction false} StaysExhausted(r: Reader, ws: seq<nat>)
    requires Exhausted(r)
    ensures Exhausted(ReadFields(r, ws).1)
    decreases |ws|
  {
    if ws != [] {
      StaysExhausted(TakeUint(r, ws[0]).1, ws[1..]);
    }
  }

  lemma {:induction false} ReadFieldsShort(r: Reader, ws: seq<nat>)
    requires |r.rest| < Sum(ws)
    ensures Exhausted(ReadFields(r, ws).1)
    decreases |ws|
  {
    if ws[0] <= |r.rest| {
      ReadFieldsShort(TakeUint(r, ws[0]).1, ws[1..]);
    } else {
      StaysExhausted(TakeUint(r, ws[0]).1, ws[1..]);
    }
  }

  lemma PrefixShort(bs: seq<Byte>)
    requires |bs| < 4
    ensures Exhausted(ReadReason(Reader(bs, false)).1)
  {
    hide FromLittleEndian;
  }

  lemma LengthThenShort(a: seq<Byte>, b: seq<Byte>)
    requires |a| == 4 && |b| < FromLittleEndian(a)
    ensures Exhausted(ReadReason(Reader(a + b, false)).1)
  {
    TakeSplit(a, b);
    hide FromLittleEndian;
  }

  /** A strict prefix of a written reason exhausts the reader. */
  lemma ReasonShort(s: seq<Byte>, n: nat)
    requires |s| < TWO_32 && n < 4 + |s|
    ensures Exhausted(ReadReason(Reader((LittleEndian(|s|, 4) + s)[..n], false)).1)
  {
    var a := LittleEndian(|s|, 4);
    if n < 4 {
      hide LittleEndian;
      PrefixShort((a + s)[..n]);
    } else {
      assert (a + s)[..n] == a + s[..n - 4];
      Pow256Values();
      LittleEndianRoundTrip(|s|, 4);
      hide LittleEndian;
      LengthThenShort(a, s[..n - 4]);
    }
  }

  /** Whatever follows a reader that is exhausted after the head stays exhausted. */
  lemma BodyExhausted(r: Reader, kind: Byte)
    requires Exhausted(r)
    ensures var r2 := ReadFields(r, Widths(kind)).1;
            Exhausted(if kind == TRADE then r2 else ReadReason(r2).1)
  {
    StaysExhausted(r, Widths(kind));
    hide ReadFields;
  }

  /** Fields and reason cut anywhere before their end. */
  lemma BodyShort(r: Record, n: nat)
    requires Encodable(r)
    requires n < |WriteFields(Values(r), Widths(r.kind)) + Tail(r)|
    ensures var cut := (WriteFields(Values(r), Widths(r.kind)) + Tail(r))[..n];
            var r2 := ReadFields(Reader(cut, false), Widths(r.kind)).1;
            Exhausted(if r.kind == TRADE then r2 else ReadReason(r2).1)
  {
    var fixed := WriteFields(Values(r), Widths(r.kind));
    if n < |fixed| {
      ReadFieldsShort(Reader((fixed + Tail(r))[..n], false), Widths(r.kind));
      hide ReadFields;
    } else {
      assert (fixed + Tail(r))[..n] == fixed + Tail(r)[..n - |fixed|];
      ValuesFit(r);
      ReadWritten(Values(r), Widths(r.kind), Tail(r)[..n - |fixed|]);
      hide ReadFields;
      hide Values;
      ReasonShort(r.reason, n - |fixed|);
    }
  }

  lemma RecordShort(r: Record, n: nat)
    requires Encodable(r) && 0 < n < |Encode(r)|
    ensures var (x, on) := ReadRecord(Reader(Encode(r)[..n], false)); x.kind == r.kind && Exhausted(on)
  {
    hide ReadFields;
    hide Build;
    hide Values;
    hide Widths;
    hide ReadReason;
    hide Tail;
    hide LittleEndian;
    hide Encodable;
    var body := WriteFields(Values(r), Widths(r.kind)) + Tail(r);
    assert Encode(r) == Head(r) + body;
    HeadKind(r, n);
    if n < |Head(r)| {
      ReadFieldsShort(Reader(Encode(r)[..n], false), [1, 8, 8]);
      BodyExhausted(ReadFields(Reader(Encode(r)[..n], false), [1, 8, 8]).1, r.kind);
    } else {
      hide WriteFields;
      assert Encode(r)[..n] == Head(r) + body[..n - |Head(r)|];
      ValuesFit(r);
      ReadWritten([r.kind, r.sequence, r.timestamp], [1, 8, 8], body[..n - |Head(r)|]);
      BodyShort(r, n - |Head(r)|);
    }
  }

  /** One byte is enough to read the kind. */
  lemma HeadKind(r: Record, n: nat)
    requires 0 < n <= |Encode(r)|
    ensures ReadFields(Reader(Encode(r)[..n], false), [1, 8, 8]).0[0] == r.kind
  {
    var bs := Encode(r)[..n];
    assert Encode(r)[0] == Head(r)[0] == LittleEndian(r.kind, 1)[0] == r.kind;
    assert bs[..1] == [r.kind];
    assert [r.kind][1..] == [];
    assert FromLittleEndian(bs[..1]) == r.kind;
  }

  // ---- What a cut leaves of the fields ---------------------------------------------------------

  /** All fields of fixed width: kind, sequence, timestamp, and those of the kind. */
  function AllWidths(kind: Byte): seq<nat> {
    [1, 8, 8] + Widths(kind)
  }

  function AllValues(r: Record): (vs: seq<nat>)
    ensures |vs| == |AllWidths(r.kind)|
  {
    [r.kind, r.sequence, r.timestamp] + Values(r)
  }

  /** x is r read back from its first m bytes: fields before the cut are kept, fields behind it are zero. */
  ghost predicate Torn(x: Record, r: Record, m: nat) {
    && x.kind == r.kind && Signed(x.order.price) && Signed(x.order.qty)
    && CutAt(AllValues(x), AllValues(r), AllWidths(r.kind), m)
  }

  lemma {:induction false} ExhaustedZeros(r: Reader, ws: seq<nat>)
    requires Exhausted(r)
    ensures forall j :: 0 <= j < |ws| ==> ReadFields(r, ws).0[j] == 0
    decreases |ws|
  {
    if ws != [] {
      var on := TakeUint(r, ws[0]).1;
      ExhaustedZeros(on, ws[1..]);
      assert r.rest[..0] == [];
    }
  }

  lemma SumStep(ws: seq<nat>, j: nat)
    requires 0 < j <= |ws|
    ensures Sum(ws[..j]) == ws[0] + Sum(ws[1..][..j - 1])
  {
    assert ws[..j][1..] == ws[1..][..j - 1];
  }

  /** What was read of fields that were cut after n bytes. */
  ghost predicate CutAt(got: seq<nat>, vs: seq<nat>, ws: seq<nat>, n: nat) {
    && |got| == |vs| == |ws|
    && forall j :: 0 <= j < |ws| ==>
         (Sum(ws[..j + 1]) <= n ==> got[j] == vs[j]) && (n <= Sum(ws[..j]) ==> got[j] == 0)
  }

  /** The cut lies behind the first field. */
  lemma CutBehind(more: seq<nat>, vs: seq<nat>, ws: seq<nat>, n: nat)
    requires |vs| == |ws| > 0 && n >= ws[0] && vs[0] < Pow256(ws[0]) && CutAt(more, vs[1..], ws[1..], n - ws[0])
    ensures CutAt([vs[0]] + more, vs, ws, n)
  {
    var got := [vs[0]] + more;
    forall j | 0 <= j < |ws|
      ensures (Sum(ws[..j + 1]) <= n ==> got[j] == vs[j]) && (n <= Sum(ws[..j]) ==> got[j] == 0)
    {
      SumStep(ws, j + 1);
      if j > 0 {
        SumStep(ws, j);
        assert got[j] == more[j - 1] && vs[j] == vs[1..][j - 1];
      } else {
        assert Sum(ws[1..][..0]) == 0 && Sum(ws[..0]) == 0 && Pow256(0) == 1;
      }
    }
  }

  /** The cut lies within the first field. */
  lemma CutWithin(v: nat, more: seq<nat>, vs: seq<nat>, ws: seq<nat>, n: nat)
    requires |vs| == |ws| == |more| + 1 && n < ws[0] && (n == 0 ==> v == 0)
    requires forall j :: 0 <= j < |more| ==> more[j] == 0
    ensures CutAt([v] + more, vs, ws, n)
  {
    var got := [v] + more;
    forall j | 0 <= j < |ws|
      ensures (Sum(ws[..j + 1]) <= n ==> got[j] == vs[j]) && (n <= Sum(ws[..j]) ==> got[j] == 0)
    {
      SumStep(ws, j + 1);
      assert Sum(ws[..0]) == 0;
    }
  }

  /** Each field read from a cut file is as written if it lies before the cut, and zero if behind. */
  lemma {:induction false} FieldsCut(vs: seq<nat>, ws: seq<nat>, more: seq<Byte>, n: nat)
    requires Fit(vs, ws) && n <= |WriteFields(vs, ws) + more|
    ensures CutAt(ReadFields(Reader((WriteFields(vs, ws) + more)[..n], false), ws).0, vs, ws, n)
    decreases |ws|
  {
    if ws != [] {
      hide CutAt;
      var a, b := LittleEndian(vs[0], ws[0]), WriteFields(vs[1..], ws[1..]);
      assert WriteFields(vs, ws) + more == a + (b + more);
      var r := Reader((WriteFields(vs, ws) + more)[..n], false);
      var (v, on) := TakeUint(r, ws[0]);
      if n >= ws[0] {
        assert r.rest == a + (b + more)[..n - ws[0]];
        TakeSplit(a, (b + more)[..n - ws[0]]);
        LittleEndianRoundTrip(vs[0], ws[0]);
        FieldsCut(vs[1..], ws[1..], more, n - ws[0]);
        CutBehind(ReadFields(on, ws[1..]).0, vs, ws, n);
      } else {
        ExhaustedZeros(on, ws[1..]);
        CutWithin(v, ReadFields(on, ws[1..]).0, vs, ws, n);
      }
    }
  }

  lemma {:induction false} ReadFieldsConcat(r: Reader, a: seq<nat>, b: seq<nat>)
    ensures var (x, on) := ReadFields(r, a);
            ReadFields(r, a + b).0 == x + ReadFields(on, b).0
    decreases |a|
  {
    if a == [] {
      assert a + b == b;
    } else {
      assert (a + b)[1..] == a[1..] + b;
      ReadFieldsConcat(TakeUint(r, a[0]).1, a[1..], b);
    }
  }

  lemma {:induction false} WriteFieldsConcat(vs: seq<nat>, a: seq<nat>, us: seq<nat>, b: seq<nat>)
    requires |vs| == |a| && |us| == |b|
    ensures WriteFields(vs + us, a + b) == WriteFields(vs, a) + WriteFields(us, b)
    decreases |a|
  {
    if a == [] {
      assert vs + us == us && a + b == b;
    } else {
      assert (vs + us)[1..] == vs[1..] + us && (a + b)[1..] == a[1..] + b;
      WriteFieldsConcat(vs[1..], a[1..], us, b);
    }
  }

  lemma {:induction false} ReadFit(r: Reader, ws: seq<nat>)
    ensures Fit(ReadFields(r, ws).0, ws)
    decreases |ws|
  {
    if ws != [] {
      FromLittleEndianBound(Take(r, ws[0]).0, ws[0]);
      ReadFit(TakeUint(r, ws[0]).1, ws[1..]);
    }
  }

  lemma ValuesBuild(kind: Byte, sequence: nat, timestamp: nat, vs: seq<nat>, reason: seq<Byte>)
    requires Fit(vs, Widths(kind))
    ensures var x := Build(kind, sequence, timestamp, vs, reason);
            && AllValues(x) == [kind, sequence, timestamp] + vs
            && Signed(x.order.price) && Signed(x.order.qty)
  {
    Pow256Values();
    hide Pow256;
    var n := |vs|;
    assert vs[n - 2] < TWO_64 && vs[n - 1] < TWO_64;
    PatternKept(vs[n - 2]);
    PatternKept(vs[n - 1]);
  }

  lemma RecordTorn(r: Record, m: nat)
    requires Encodable(r) && 0 < m < |Encode(r)|
    ensures Torn(ReadRecord(Reader(Encode(r)[..m], false)).0, r, m)
  {
    var rd := Reader(Encode(r)[..m], false);
    var (head, r1) := ReadFields(rd, [1, 8, 8]);
    var (vs, r2) := ReadFields(r1, Widths(r.kind));
    HeadKind(r, m);
    ReadFit(r1, Widths(r.kind));
    assert head == [r.kind, head[1], head[2]];
    hide ReadFields;
    hide Widths;
    hide Build;
    hide ReadReason;
    hide Values;
    ReadParts(rd, r.kind, head[1], head[2], r1, vs, r2);
    ValuesBuild(r.kind, head[1], head[2], vs, if r.kind == TRADE then [] else ReadReason(r2).0);
    AllFields(r, m);
    ReadFieldsConcat(rd, [1, 8, 8], Widths(r.kind));
  }

  /** The cut seen on all fields at once. */
  lemma AllFields(r: Record, m: nat)
    requires Encodable(r) && m <= |Encode(r)|
    ensures CutAt(ReadFields(Reader(Encode(r)[..m], false), AllWidths(r.kind)).0, AllValues(r), AllWidths(r.kind), m)
  {
    ValuesFit(r);
    hide ReadFields;
    hide WriteFields;
    hide Values;
    hide Widths;
    hide Tail;
    hide CutAt;
    WriteFieldsConcat([r.kind, r.sequence, r.timestamp], [1, 8, 8], Values(r), Widths(r.kind));
    FieldsCut(AllValues(r), AllWidths(r.kind), Tail(r), m);
  }

  /** How many records lie wholly within the first n bytes. */
  function Complete(rs: seq<Record>, n: nat): (k: nat)
    ensures k <= |rs|
    decreases |rs|
  {
    if rs == [] || n < |Encode(rs[0])| then 0 else 1 + Complete(rs[1..], n - |Encode(rs[0])|)
  }

  /** The bytes of the record that a cut splits. */
  function Stub(rs: seq<Record>, n: nat): seq<Byte>
    decreases |rs|
  {
    if rs == [] then []
    else if n < |Encode(rs[0])| then Encode(rs[0])[..n]
    else Stub(rs[1..], n - |Encode(rs[0])|)
  }

  lemma {:induction false} CutSplits(rs: seq<Record>, n: nat)
    requires n <= |EncodeAll(rs)|
    ensures EncodeAll(rs)[..n] == EncodeAll(rs[..Complete(rs, n)]) + Stub(rs, n)
    ensures n == |EncodeAll(rs[..Complete(rs, n)])| + |Stub(rs, n)|
    decreases |rs|
  {
    hide Encode;
    var k := Complete(rs, n);
    if k == 0 {
      assert rs[..0] == [];
    } else {
      var first, later := Encode(rs[0]), EncodeAll(rs[1..]);
      CutSplits(rs[1..], n - |first|);
      assert rs[..k][1..] == rs[1..][..k - 1];
      assert (first + later)[..n] == first + later[..n - |first|];
      assert first + (EncodeAll(rs[1..][..k - 1]) + Stub(rs, n)) == first + EncodeAll(rs[1..][..k - 1]) + Stub(rs, n);
    }
  }

  lemma {:induction false} StubIsPrefix(rs: seq<Record>, n: nat)
    requires Stub(rs, n) != []
    ensures var k := Complete(rs, n);
            k < |rs| && |Stub(rs, n)| < |Encode(rs[k])| && Stub(rs, n) == Encode(rs[k])[..|Stub(rs, n)|]
    decreases |rs|
  {
    hide Encode;
    if n >= |Encode(rs[0])| {
      StubIsPrefix(rs[1..], n - |Encode(rs[0])|);
    }
  }

  lemma StubReads(r: Record, n: nat)
    requires Encodable(r) && 0 < n < |Encode(r)|
    ensures var out := ReadRecords(Reader(Encode(r)[..n], false)); |out| == 1 && Torn(out[0], r, n)
  {
    RecordShort(r, n);
    RecordTorn(r, n);
    hide Torn;
    hide ReadRecord;
    hide Encode;
  }

  /**
   A log cut n bytes behind its header reads as all its complete records, and one more
   exactly when the cut falls inside a record: that one has the fields before the cut, and
   zeros behind it.
   */
  lemma CutLog(rs: seq<Record>, n: nat)
    requires (forall i :: 0 <= i < |rs| ==> Encodable(rs[i])) && n <= |EncodeAll(rs)|
    ensures var k := Complete(rs, n);
            var inside := |EncodeAll(rs[..k])| < n;
            var out := ReadAll((HEADER + EncodeAll(rs))[..HEADER_SIZE + n]);
            && |out| == (if inside then k + 1 else k)
            && out[..k] == PersistedAll(rs[..k])
            && (inside ==> k < |rs| && Torn(out[k], rs[k], n - |EncodeAll(rs[..k])|))
  {
    hide ReadRecords;
    hide Encode;
    hide EncodeAll;
    hide ReadAll;
    hide Complete;
    hide Stub;
    hide Persisted;
    hide Encodable;
    hide Torn;
    hide LittleEndian;
    var k, more := Complete(rs, n), Stub(rs, n);
    CutSplits(rs, n);
    assert (HEADER + EncodeAll(rs))[..HEADER_SIZE + n] == HEADER + EncodeAll(rs)[..n];
    HeaderReadBack(EncodeAll(rs)[..n]);
    ReadEncodedAll(rs[..k], more);
    if more != [] {
      StubIsPrefix(rs, n);
      StubReads(rs[k], |more|);
    } else {
      ReadNothing();
    }
  }

  // ---- The log as a file ---------------------------------------------------------------------

  class EventLog {
    var file: seq<Byte>
    var writing: bool

    constructor ()
      ensures file == HEADER && writing
    {
      file, writing := HEADER, true;
    }

    method Append(r: Record)
      modifies this
      ensures writing == old(writing)
      ensures file == if writing then old(file) + Encode(r) else old(file)
    {
      if !writing {
        return;
      }
      file := file + Encode(r);
    }

    /** Read the file from its start; this ends writing. */
    method ReadBack() returns (out: seq<Record>)
      modifies this
      ensures !writing && file == old(file) && out == ReadAll(file)
    {
      hide ReadRecord;
      hide ReadFields;
      writing := false;
      out := [];
      var (h, r) := ReadFields(Reader(file, false), [8, 8]);
      if h[0] != MAGIC || h[1] != VERSION {
        return;
      }
      ghost var all := ReadRecords(r);
      while !r.eof
        invariant all == out + ReadRecords(r)
        decreases |r.rest|
      {
        var (rec, on) := ReadRecord(r);
        if |on.rest| >= |r.rest| {
          break;
        }
        out := out + [rec];
        if on.eof {
          return;
        }
        r := on;
      }
    }
  }
}
