/** Quantity is conserved: what rests is what was accepted, less what traded or was withdrawn. */
module Conservation {
  import opened Types
  import opened BookSpec
  import opened MatchSpec
  import opened EngineSpec
  import opened Safety

  /** Quantity resting on one side of one instrument. */
  function RestingTotal(e: Engine, i: nat, side: Side): int {
    Total(BookOf(e, i).Get(side))
  }

  function Volume(ts: seq<Trade>): int {
    if ts == [] then 0 else ts[0].quantity + Volume(ts[1..])
  }

  // ---- Sweeping -----------------------------------------------------------------------

  lemma {:induction false} SweepTotal(s: seq<Order>, taker: Order)
    ensures Total(Sweep(s, taker).rest) == Total(s) - Lots(Sweep(s, taker).fills)
    ensures Sweep(s, taker).left == taker.remaining - Lots(Sweep(s, taker).fills)
    decreases |s|
  {
    if Trading(s, taker) {
      var q := Bite(s, taker);
      var f := Fill(s[0], q);
      if q < s[0].remaining {
        assert Lots([f]) == q + Lots([f][1..]);
        if q > 0 { TotalUpdate(s, 0, Shrunk(s[0], s[0].remaining - q)); }
      } else {
        var more := Sweep(s[1..], Hit(taker, q));
        SweepTotal(s[1..], Hit(taker, q));
        assert ([f] + more.fills)[1..] == more.fills;
      }
    }
  }

  lemma {:induction false} TradesVolume(taker: Order, fills: seq<Fill>, first: nat)
    ensures Volume(Trades(taker, fills, first)) == Lots(fills)
    decreases |fills|
  {
    if fills != [] {
      TradesVolume(taker, fills[1..], first + 1);
      assert Trades(taker, fills, first)[1..] == Trades(taker, fills[1..], first + 1);
    }
  }

  // ---- One command --------------------------------------------------------------------

  /** What a command adds to the resting quantity of a side, read off its outcome. */
  function Flow(e: Engine, c: Command, i: nat, side: Side): int {
    match c
    case Enter(o, gate) =>
      if o.instrument != i then 0 else
        var out := Submit(e, o, gate);
        if side == o.side then (if out.result.status.Accepted? then out.result.resting else 0)
        else -Volume(out.trades)
    case Withdraw(j, id) =>
      if i == j && i in e.books && Cancellable(e.books[i], id) && HolderOf(e.books[i], id) == side
      then -OrderOf(e.books[i], id).remaining else 0
    case Trim(j, id, q) =>
      if i == j && i in e.books && Reducible(e.books[i], id, q) && HolderOf(e.books[i], id) == side
      then q - OrderOf(e.books[i], id).remaining else 0
    case Change(j, id, q, p) =>
      if i == j && i in e.books && Changed(ModifyKind(e.books[i], id, q, p)) && HolderOf(e.books[i], id) == side
      then q - OrderOf(e.books[i], id).remaining else 0
    case Register(j) => 0
    case Unregister(j) => if i == j then -RestingTotal(e, i, side) else 0
  }

  predicate Changed(r: ModifyResult) {
    r.Modified? || r.Replaced?
  }

  lemma SettleTotal(b: Book, taker: Order, side: Side)
    ensures var st := Settle(b, taker);
            Total(st.book.Get(side)) == Total(b.Get(side))
              + (if side == taker.side then (if st.result.status.Accepted? then st.result.resting else 0) else -Lots(st.fills))
  {
    hide Sweep;
    hide Total;
    hide Enqueue;
    hide Lots;
    hide Insertable;
    var far := taker.side.Opposite();
    SweepTotal(b.Get(far), taker);
    TotalEnqueue(b.Get(taker.side), taker.(remaining := Sweep(b.Get(far), taker).left));
  }

  /** The reported fill counts what was missing on arrival as filled. */
  lemma SettleFilled(b: Book, taker: Order)
    requires taker.remaining >= 0
    ensures Settle(b, taker).result.filled == Lots(Settle(b, taker).fills) + (taker.quantity - taker.remaining)
  {
    hide Sweep;
    hide Lots;
    hide Enqueue;
    hide Insertable;
    SweepTotal(b.Get(taker.side.Opposite()), taker);
    LeftNonNegative(b.Get(taker.side.Opposite()), taker);
  }

  lemma CancelTotal(b: Book, id: nat, side: Side)
    ensures Total(Cancel(b, id).Get(side)) == Total(b.Get(side))
              - (if Cancellable(b, id) && HolderOf(b, id) == side then OrderOf(b, id).remaining else 0)
  {
    if Cancellable(b, id) && HolderOf(b, id) == side {
      TotalRemoveAt(b.Get(side), PosOf(b.Get(side), id));
    }
  }

  lemma AmendTotal(b: Book, id: nat, o: Order, side: Side)
    requires Live(b, id)
    ensures Total(AmendAt(b, id, o).Get(side)) == Total(b.Get(side))
              + (if HolderOf(b, id) == side then o.remaining - OrderOf(b, id).remaining else 0)
  {
    if HolderOf(b, id) == side {
      TotalUpdate(b.Get(side), PosOf(b.Get(side), id), o);
    }
  }

  lemma ReduceTotal(b: Book, id: nat, q: int, side: Side)
    ensures Total(Reduce(b, id, q).Get(side)) == Total(b.Get(side))
              + (if Reducible(b, id, q) && HolderOf(b, id) == side then q - OrderOf(b, id).remaining else 0)
  {
    if Reducible(b, id, q) {
      AmendTotal(b, id, Shrunk(OrderOf(b, id), q), side);
    }
  }

  lemma ModifyTotal(b: Book, id: nat, q: int, p: int, side: Side)
    requires Valid(b)
    ensures Total(Modify(b, id, q, p).Get(side)) == Total(b.Get(side))
              + (if Changed(ModifyKind(b, id, q, p)) && HolderOf(b, id) == side then q - OrderOf(b, id).remaining else 0)
  {
    hide PosOf;
    hide Total;
    hide AmendAt;
    hide Enqueue;
    hide BookSpec.Cancel;
    hide Sorted;
    match ModifyKind(b, id, q, p)
    case Modified =>
      var o := OrderOf(b, id);
      AmendTotal(b, id, Shrunk(o, q).(quantity := o.quantity - (o.remaining - q)), side);
    case Replaced =>
      var o := Requoted(OrderOf(b, id), q, p);
      assert OrderOf(b, id).side == HolderOf(b, id);
      CancelTotal(b, id, side);
      ReplacementInsertable(b, id, q, p);
      TotalEnqueue(Cancel(b, id).Get(o.side), o);
    case _ =>
  }

  lemma SubmitFlow(e: Engine, o: Order, gate: Option<string>, i: nat, side: Side)
    ensures RestingTotal(Submit(e, o, gate).engine, i, side) == RestingTotal(e, i, side) + Flow(e, Enter(o, gate), i, side)
  {
    if Objection(e, o, gate).None? {
      hide Settle;
      hide Trades;
      hide Total;
      var taker := Sequenced(e, o);
      var st := Settle(e.books[o.instrument], taker);
      SettleTotal(e.books[o.instrument], taker, side);
      TradesVolume(taker, st.fills, e.next + 1);
    }
  }

  lemma OnBookResting(e: Engine, j: nat, b: Book, i: nat, side: Side)
    ensures RestingTotal(OnBook(e, j, b), i, side) == if i == j then Total(b.Get(side)) else RestingTotal(e, i, side)
  {
  }

  lemma ChangeFlow(e: Engine, c: Command, i: nat, side: Side)
    requires AllValid(e) && (c.Withdraw? || c.Trim? || c.Change?)
    ensures RestingTotal(Next(e, c), i, side) == RestingTotal(e, i, side) + Flow(e, c, i, side)
  {
    hide Total;
    hide BookSpec.Cancel;
    hide BookSpec.Modify;
    hide BookSpec.Valid;
    hide BookSpec.Reduce;
    hide Cancellable;
    hide Reducible;
    hide ModifyKind;
    hide OrderOf;
    hide HolderOf;
    var j := c.instrument;
    if j in e.books {
      OnBookResting(e, j, BookOf(Next(e, c), j), i, side);
      hide OnBook;
      match c
      case Withdraw(_, id) => CancelTotal(e.books[j], id, side);
      case Trim(_, id, q) => ReduceTotal(e.books[j], id, q, side);
      case Change(_, id, q, p) => ModifyTotal(e.books[j], id, q, p, side);
    }
  }

  /** One command changes the resting quantity of a side by its flow. */
  lemma StepConserves(e: Engine, c: Command, i: nat, side: Side)
    requires AllValid(e) && Allowed(e, c)
    ensures RestingTotal(Next(e, c), i, side) == RestingTotal(e, i, side) + Flow(e, c, i, side)
  {
    if c.Register? || c.Unregister? {
      assert Total([]) == 0;
    } else {
      hide Total;
      hide Submit;
      hide Flow;
      if c.Enter? {
        SubmitFlow(e, c.order, c.gate, i, side);
      } else {
        ChangeFlow(e, c, i, side);
      }
    }
  }

  // ---- Runs -----------------------------------------------------------------------------

  function FlowOf(e: Engine, cs: seq<Command>, i: nat, side: Side): int
    decreases |cs|
  {
    if cs == [] then 0 else Flow(e, cs[0], i, side) + FlowOf(Next(e, cs[0]), cs[1..], i, side)
  }

  /** Over every run, what rests at the end is what rested at the start plus all flows. */
  lemma {:induction false} RunConserves(e: Engine, cs: seq<Command>, i: nat, side: Side)
    requires AllValid(e) && AllowedRun(e, cs)
    ensures RestingTotal(Run(e, cs), i, side) == RestingTotal(e, i, side) + FlowOf(e, cs, i, side)
    decreases |cs|
  {
    if cs != [] {
      StepConserves(e, cs[0], i, side);
      StepValid(e, cs[0]);
      RunConserves(Next(e, cs[0]), cs[1..], i, side);
    }
  }

  /**
   The reported fill of a submission is the sum of its trades, if and only if the order was
   refused or arrived with its whole quantity remaining.
   */
  lemma FilledIsVolumeIff(e: Engine, o: Order, gate: Option<string>)
    ensures var out := Submit(e, o, gate);
            out.result.filled == Volume(out.trades) <==> Objection(e, o, gate).Some? || o.remaining == o.quantity
  {
    if Objection(e, o, gate).None? {
      hide Settle;
      hide Trades;
      var taker := Sequenced(e, o);
      SettleFilled(e.books[o.instrument], taker);
      TradesVolume(taker, Settle(e.books[o.instrument], taker).fills, e.next + 1);
    }
  }

  lemma {:induction false} LeftNonNegative(s: seq<Order>, taker: Order)
    requires taker.remaining >= 0
    ensures Sweep(s, taker).left >= 0
    decreases |s|
  {
    if Trading(s, taker) && Bite(s, taker) >= s[0].remaining {
      LeftNonNegative(s[1..], Hit(taker, Bite(s, taker)));
    }
  }
}
