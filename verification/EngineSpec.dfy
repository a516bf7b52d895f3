/**
 The engine on values: one reference book per instrument and the sequence counter that
 numbers both orders and trades. Runs are lists of commands.
 */
module EngineSpec {
  import opened Types
  import opened BookSpec
  import opened MatchSpec

  datatype Engine = Engine(books: map<nat, Book>, next: nat)

  const FRESH: Engine := Engine(map[], 1)

  /** A fresh engine with these instruments registered. */
  function Opened(instruments: set<nat>): Engine {
    Engine(map i | i in instruments :: EMPTY, FRESH.next)
  }

  // ---- One submission against one book -------------------------------------------

  datatype Settled = Settled(book: Book, fills: seq<Fill>, result: SubmitResult)

  function Report(taker: Order, status: SubmitStatus, filled: int, resting: int, reason: string): SubmitResult {
    SubmitResult(status, taker.id, taker.instrument, taker.sequence, filled, resting,
                 taker.side, taker.kind, taker.price, reason)
  }

  /** Match a sequenced taker, then drop its remainder or let it rest. */
  function Settle(b: Book, taker: Order): Settled {
    var far := taker.side.Opposite();
    var r := Sweep(b.Get(far), taker);
    var swept := b.With(far, r.rest);
    var done := taker.quantity - r.left;
    if r.left <= 0 then
      Settled(swept, r.fills, Report(taker, FullyFilled, taker.quantity, 0, ""))
    else if taker.kind.Market? then
      Settled(swept, r.fills,
              if done > 0 then Report(taker, SubmitStatus.PartiallyFilled, done, 0, "")
              else Report(taker, SubmitStatus.Rejected, done, 0, "no liquidity for market order"))
    else if taker.tif.IOC? then
      Settled(swept, r.fills,
              Report(taker, if done > 0 then SubmitStatus.PartiallyFilled else SubmitStatus.Cancelled, done, 0, ""))
    else
      var residual := taker.(remaining := r.left);
      if Insertable(swept, residual) then
        Settled(Insert(swept, residual), r.fills, Report(taker, Accepted, done, r.left, ""))
      else
        Settled(swept, r.fills, Report(taker, SubmitStatus.Rejected, done, r.left, "duplicate order id"))
  }

  // ---- Submission to the engine ----------------------------------------------------

  datatype Outcome = Outcome(engine: Engine, trades: seq<Trade>, result: SubmitResult)

  /** The resting order is passive: its price is the price of the trade. */
  function MakeTrade(taker: Order, f: Fill, id: nat): Trade {
    if taker.side.Buy? then
      Trade(id, taker.instrument, taker.id, f.resting.id, taker.trader, f.resting.trader,
            f.resting.price, f.qty, taker.sequence)
    else
      Trade(id, taker.instrument, f.resting.id, taker.id, f.resting.trader, taker.trader,
            f.resting.price, f.qty, taker.sequence)
  }

  function Trades(taker: Order, fills: seq<Fill>, first: nat): (ts: seq<Trade>)
    ensures |ts| == |fills|
  {
    seq(|fills|, k requires 0 <= k < |fills| => MakeTrade(taker, fills[k], first + k))
  }

  /** An order without an id takes the next sequence number as its id. */
  function Named(e: Engine, o: Order): Order {
    if o.id == INVALID_ID then o.(id := e.next) else o
  }

  /** Why a submission is refused before it is sequenced; `gate` carries the risk gate's objection. */
  function Objection(e: Engine, o: Order, gate: Option<string>): Option<string> {
    if o.instrument == INVALID_ID then Some("invalid instrument")
    else if !ValidQuantity(o.quantity) || o.remaining <= 0 then Some("invalid quantity")
    else if o.kind.Limit? && !ValidPrice(o.price) then Some("invalid price")
    else if o.instrument !in e.books then Some("instrument not registered")
    else if gate.Some? then Some("risk: " + gate.value)
    else None
  }

  function Refusal(id: nat, instrument: nat, reason: string): SubmitResult {
    SubmitResult(SubmitStatus.Rejected, id, instrument, 0, 0, 0, Buy, Limit, 0, reason)
  }

  function Sequenced(e: Engine, o: Order): Order {
    Named(e, o).(sequence := e.next)
  }

  function Submit(e: Engine, o: Order, gate: Option<string>): Outcome {
    match Objection(e, o, gate)
    case Some(reason) => Outcome(e, [], Refusal(Named(e, o).id, o.instrument, reason))
    case None =>
      var taker := Sequenced(e, o);
      var st := Settle(e.books[o.instrument], taker);
      Outcome(Engine(e.books[o.instrument := st.book], e.next + 1 + |st.fills|),
              Trades(taker, st.fills, e.next + 1), st.result)
  }

  // ---- Commands and runs -----------------------------------------------------------

  datatype Command =
    | Enter(order: Order, gate: Option<string>)
    | Withdraw(instrument: nat, id: nat)
    | Change(instrument: nat, id: nat, qty: int, price: int)
    | Trim(instrument: nat, id: nat, qty: int)
    | Register(instrument: nat)
    | Unregister(instrument: nat)

  function OnBook(e: Engine, i: nat, b: Book): Engine {
    e.(books := e.books[i := b])
  }

  function BookOf(e: Engine, i: nat): Book {
    if i in e.books then e.books[i] else EMPTY
  }

  /** The engine after a command. */
  function Next(e: Engine, c: Command): Engine {
    match c
    case Enter(o, gate) => Submit(e, o, gate).engine
    case Withdraw(i, id) => if i in e.books then OnBook(e, i, Cancel(e.books[i], id)) else e
    case Change(i, id, q, p) => if i in e.books then OnBook(e, i, Modify(e.books[i], id, q, p)) else e
    case Trim(i, id, q) => if i in e.books then OnBook(e, i, Reduce(e.books[i], id, q)) else e
    case Register(i) => if i in e.books then e else OnBook(e, i, EMPTY)
    case Unregister(i) => e.(books := e.books - {i})
  }

  /** The trades a command emits. */
  function TradesOf(e: Engine, c: Command): seq<Trade> {
    if c.Enter? then Submit(e, c.order, c.gate).trades else []
  }

  function Run(e: Engine, cs: seq<Command>): Engine
    decreases |cs|
  {
    if cs == [] then e else Run(Next(e, cs[0]), cs[1..])
  }

  // ---- Runs of submissions alone -----------------------------------------------------

  datatype Submission = Submission(order: Order, gate: Option<string>)

  function After(e: Engine, s: Submission): Engine {
    Submit(e, s.order, s.gate).engine
  }

  function RunAll(e: Engine, ss: seq<Submission>): Engine
    decreases |ss|
  {
    if ss == [] then e else RunAll(After(e, ss[0]), ss[1..])
  }
}
