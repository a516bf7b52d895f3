/**
 Books compared up to fields that matching never reads: where an order comes from, or how
 it is numbered. Matching and insertion commute with forgetting those fields.
 */
module Blurring {
  import opened Types
  import opened BookSpec
  import opened MatchSpec
  import opened EngineSpec

  /** What to forget: trader and time in force, or the sequence number. */
  datatype Blur = Origin | Number

  function Blurred(m: Blur, o: Order): Order {
    match m
    case Origin => o.(trader := 0, tif := GTC)
    case Number => o.(sequence := 0)
  }

  function BlurAll(m: Blur, s: seq<Order>): seq<Order> {
    seq(|s|, i requires 0 <= i < |s| => Blurred(m, s[i]))
  }

  function BlurBook(m: Blur, b: Book): Book {
    Book(BlurAll(m, b.bids), BlurAll(m, b.asks))
  }

  function BlurFills(m: Blur, fills: seq<Fill>): (r: seq<Fill>)
    ensures |r| == |fills|
  {
    seq(|fills|, i requires 0 <= i < |fills| => Fill(Blurred(m, fills[i].resting), fills[i].qty))
  }

  /** Books that agree up to numbering agree, order by order, in every other field. */
  lemma NumbersOnly(b: Book, c: Book, side: Side, k: nat)
    requires BlurBook(Number, b) == BlurBook(Number, c) && k < |b.Get(side)|
    ensures k < |c.Get(side)| == |b.Get(side)|
    ensures b.Get(side)[k] == c.Get(side)[k].(sequence := b.Get(side)[k].sequence)
  {
    var s, t := b.Get(side), c.Get(side);
    assert BlurAll(Number, s) == BlurAll(Number, t);
    assert |BlurAll(Number, s)| == |s| && |BlurAll(Number, t)| == |t|;
    assert BlurAll(Number, s)[k] == Blurred(Number, s[k]) && BlurAll(Number, t)[k] == Blurred(Number, t[k]);
  }

  /** Without origins a book keeps every order, with no trader and good till cancelled. */
  lemma OriginsOnly(b: Book, side: Side, k: nat)
    requires k < |b.Get(side)|
    ensures |BlurBook(Origin, b).Get(side)| == |b.Get(side)|
    ensures BlurBook(Origin, b).Get(side)[k] == b.Get(side)[k].(trader := 0, tif := GTC)
  {
  }

  lemma BlurTail(m: Blur, s: seq<Order>)
    requires s != []
    ensures BlurAll(m, s)[1..] == BlurAll(m, s[1..]) && BlurAll(m, s)[0] == Blurred(m, s[0])
  {
  }

  lemma {:induction false} SweepBlurs(m: Blur, s: seq<Order>, t: Order)
    ensures var r := Sweep(s, t);
            Sweep(BlurAll(m, s), Blurred(m, t)) == Swept(BlurFills(m, r.fills), BlurAll(m, r.rest), r.left)
    decreases |s|
  {
    if !Trading(s, t) {
      assert BlurFills(m, []) == [];
    } else {
      BlurTail(m, s);
      var q := Bite(s, t);
      assert Bite(BlurAll(m, s), Blurred(m, t)) == q && Trading(BlurAll(m, s), Blurred(m, t));
      if q < s[0].remaining {
        assert FillAt(BlurAll(m, s), 0, q) == BlurAll(m, FillAt(s, 0, q));
        assert BlurFills(m, [Fill(s[0], q)]) == [Fill(Blurred(m, s[0]), q)];
      } else {
        SweepBlurs(m, s[1..], Hit(t, q));
        var more := Sweep(s[1..], Hit(t, q));
        assert Hit(Blurred(m, t), q) == Blurred(m, Hit(t, q));
        assert BlurFills(m, [Fill(s[0], q)] + more.fills) == [Fill(Blurred(m, s[0]), q)] + BlurFills(m, more.fills);
      }
    }
  }

  lemma {:induction false} RankBlurs(m: Blur, s: seq<Order>, side: Side, p: int)
    ensures Rank(BlurAll(m, s), side, p) == Rank(s, side, p)
  {
    if s != [] {
      BlurTail(m, s);
      RankBlurs(m, s[1..], side, p);
    }
  }

  lemma {:induction false} PosBlurs(m: Blur, s: seq<Order>, id: nat)
    ensures PosOf(BlurAll(m, s), id) == PosOf(s, id)
  {
    if s != [] {
      BlurTail(m, s);
      PosBlurs(m, s[1..], id);
    }
  }

  lemma EnqueueBlurs(m: Blur, s: seq<Order>, o: Order)
    ensures Enqueue(BlurAll(m, s), Blurred(m, o)) == BlurAll(m, Enqueue(s, o))
  {
    RankBlurs(m, s, o.side, o.price);
    hide Rank;
    var k := Rank(s, o.side, o.price);
    assert BlurAll(m, s[..k] + [o] + s[k..]) == BlurAll(m, s)[..k] + [Blurred(m, o)] + BlurAll(m, s)[k..];
  }

  lemma InsertBlurs(m: Blur, b: Book, o: Order)
    ensures Insertable(BlurBook(m, b), Blurred(m, o)) == Insertable(b, o)
    ensures Insert(BlurBook(m, b), Blurred(m, o)) == BlurBook(m, Insert(b, o))
  {
    hide Enqueue;
    hide PosOf;
    PosBlurs(m, b.bids, o.id);
    PosBlurs(m, b.asks, o.id);
    EnqueueBlurs(m, b.Get(o.side), o);
  }

  /** A submission runs the same on books that differ only in how orders are numbered. */
  lemma SettleNumbers(b: Book, t: Order)
    ensures var st, blind := Settle(b, t), Settle(BlurBook(Number, b), Blurred(Number, t));
            && blind.book == BlurBook(Number, st.book)
            && blind.fills == BlurFills(Number, st.fills)
            && blind.result == st.result.(sequence := 0)
  {
    hide Sweep;
    hide Insert;
    hide Insertable;
    hide BlurAll;
    hide BlurFills;
    var far := t.side.Opposite();
    SweepBlurs(Number, b.Get(far), t);
    var r := Sweep(b.Get(far), t);
    var swept, residual := b.With(far, r.rest), t.(remaining := r.left);
    InsertBlurs(Number, swept, residual);
    assert BlurBook(Number, b).With(far, BlurAll(Number, r.rest)) == BlurBook(Number, swept);
    assert Blurred(Number, t).(remaining := r.left) == Blurred(Number, residual);
    hide BlurBook;
  }
}
