/** What every command keeps: well-formed books that are neither crossed nor locked. */
module Safety {
  import opened Types
  import opened BookSpec
  import opened MatchSpec
  import opened EngineSpec

  ghost predicate Sound(e: Engine) {
    e.next > 0 && forall i :: i in e.books ==> Valid(e.books[i]) && Uncrossed(e.books[i])
  }

  // ---- Sweeping keeps a valid side --------------------------------------------------

  /** t is what remains of s after its first orders are consumed, the next one perhaps reduced. */
  ghost predicate Trimmed(s: seq<Order>, t: seq<Order>) {
    && |t| <= |s|
    && (forall k :: 1 <= k < |t| ==> t[k] == s[k + |s| - |t|])
    && (t != [] ==> HeadOf(s[|s| - |t|], t[0]))
  }

  ghost predicate HeadOf(was: Order, o: Order) {
    o == was || (o == Shrunk(was, o.remaining) && 0 < o.remaining < was.remaining)
  }

  lemma {:induction false} SweepTrims(s: seq<Order>, taker: Order)
    ensures Trimmed(s, Sweep(s, taker).rest)
    ensures Sweep(s, taker).left > 0 ==> Sweep(s, taker).rest == [] || !Crosses(taker, Sweep(s, taker).rest[0].price)
    decreases |s|
  {
    if Trading(s, taker) {
      var q := Bite(s, taker);
      if q >= s[0].remaining {
        SweepTrims(s[1..], Hit(taker, q));
      }
    }
  }

  /** Same order, price and number; only quantities and status may differ. */
  predicate SameStanding(o: Order, was: Order) {
    o.id == was.id && o.price == was.price && o.sequence == was.sequence
  }

  /** A sweep fills a prefix of the side in order; what is left keeps its standing. */
  ghost predicate TakesPrefix(s: seq<Order>, r: Swept) {
    var d := |s| - |r.rest|;
    && 0 <= d && |r.fills| <= |s| && |r.fills| <= d + 1
    && (forall k :: 0 <= k < |r.fills| ==> r.fills[k].resting == s[k])
    && (forall k :: 0 <= k < |r.rest| ==> SameStanding(r.rest[k], s[k + d]))
  }

  lemma {:induction false} SweepSuffix(s: seq<Order>, taker: Order)
    ensures TakesPrefix(s, Sweep(s, taker))
    decreases |s|
  {
    if Trading(s, taker) && Bite(s, taker) >= s[0].remaining {
      var more := Sweep(s[1..], Hit(taker, Bite(s, taker)));
      SweepSuffix(s[1..], Hit(taker, Bite(s, taker)));
      PrefixStep(s, more, Bite(s, taker));
    }
  }

  lemma PrefixStep(s: seq<Order>, more: Swept, q: int)
    requires s != [] && TakesPrefix(s[1..], more)
    ensures TakesPrefix(s, more.(fills := [Fill(s[0], q)] + more.fills))
  {
    var fills := [Fill(s[0], q)] + more.fills;
    assert forall k :: 1 <= k < |fills| ==> fills[k] == more.fills[k - 1] && s[k] == s[1..][k - 1];
  }

  lemma TrimmedValid(s: seq<Order>, t: seq<Order>, side: Side)
    requires ValidSide(s, side) && Trimmed(s, t)
    ensures ValidSide(t, side)
    ensures forall k :: 0 <= k < |t| ==> exists j :: 0 <= j < |s| && s[j].id == t[k].id
  {
    var d := |s| - |t|;
    forall k | 0 <= k < |t| ensures t[k].id == s[k + d].id && t[k].price == s[k + d].price && Resting(t[k], side) {
      assert Resting(s[k + d], side);
    }
    hide Resting;
  }

  lemma SweepValid(s: seq<Order>, taker: Order)
    requires ValidSide(s, taker.side.Opposite())
    ensures ValidSide(Sweep(s, taker).rest, taker.side.Opposite())
    ensures forall k :: 0 <= k < |Sweep(s, taker).rest| ==> exists j :: 0 <= j < |s| && s[j].id == Sweep(s, taker).rest[k].id
  {
    hide Sweep;
    hide ValidSide;
    hide Trimmed;
    SweepTrims(s, taker);
    TrimmedValid(s, Sweep(s, taker).rest, taker.side.Opposite());
  }

  /** The book after a submission: swept, and perhaps with the residual inserted. */
  lemma SettleCases(b: Book, taker: Order)
    ensures var far := taker.side.Opposite();
            var r := Sweep(b.Get(far), taker);
            var swept, residual := b.With(far, r.rest), taker.(remaining := r.left);
            var st := Settle(b, taker);
            && st.fills == r.fills
            && (st.book == swept || (Insertable(swept, residual) && st.book == Insert(swept, residual)))
  {
    hide Sweep;
    hide Insert;
    hide Insertable;
  }

  lemma SweptValid(b: Book, taker: Order)
    requires Valid(b)
    ensures var far := taker.side.Opposite();
            Valid(b.With(far, Sweep(b.Get(far), taker).rest))
  {
    SweepValid(b.Get(taker.side.Opposite()), taker);
    hide Sweep;
  }

  lemma SettleValid(b: Book, taker: Order)
    requires Valid(b)
    ensures Valid(Settle(b, taker).book)
  {
    var far := taker.side.Opposite();
    SweptValid(b, taker);
    hide Sweep;
    hide Valid;
    var r := Sweep(b.Get(far), taker);
    InsertValid(b.With(far, r.rest), taker.(remaining := r.left));
  }

  /** Sweeping only moves the best opposite price away. */
  lemma SweepRecedes(s: seq<Order>, taker: Order)
    requires ValidSide(s, taker.side.Opposite())
    ensures Sweep(s, taker).rest != [] ==>
              s != [] && !Better(taker.side.Opposite(), Sweep(s, taker).rest[0].price, s[0].price)
  {
    SweepTrims(s, taker);
    var r := Sweep(s, taker);
    if r.rest != [] {
      var d := |s| - |r.rest|;
      assert r.rest[0].price == s[d].price;
      assert d > 0 ==> !Better(taker.side.Opposite(), s[d].price, s[0].price);
    }
  }

  lemma EnqueueBest(s: seq<Order>, o: Order)
    ensures var t := Enqueue(s, o);
            t[0].price == o.price || (s != [] && t[0].price == s[0].price)
    ensures !Better(o.side, o.price, Enqueue(s, o)[0].price)
  {
  }

  /** At a price of its own, a new resting order keeps the book uncrossed exactly when it does not meet the other side. */
  lemma InsertUncrossedIff(b: Book, o: Order)
    requires Valid(b) && Uncrossed(b) && Insertable(b, o) && Unshared(b, o.side, o.price)
    ensures Uncrossed(Insert(b, o)) <==> !Meets(b, o.side, o.price)
  {
    EnqueueBest(b.Get(o.side), o);
    EnqueueFront(b.Get(o.side), o);
  }

  /** A price of this side that reaches the best price of the other side. */
  predicate Meets(b: Book, side: Side, p: int) {
    var far := b.Get(side.Opposite());
    far != [] && !Better(side, far[0].price, p)
  }

  /** A price that does not reach the other side is not resting there. */
  lemma ShortOfFar(b: Book, side: Side, p: int)
    requires Valid(b) && !Meets(b, side, p)
    ensures Unshared(b, side, p)
  {
    var far := b.Get(side.Opposite());
    assert forall k :: 0 < k < |far| ==> !Better(side.Opposite(), far[k].price, far[0].price);
  }

  /** What is left of a limit order after a sweep does not reach the other side any more. */
  lemma ResidualShort(b: Book, taker: Order)
    requires Valid(b) && taker.kind.Limit?
    ensures var far := taker.side.Opposite();
            var r := Sweep(b.Get(far), taker);
            var swept := b.With(far, r.rest);
            r.left > 0 ==> !Meets(swept, taker.side, taker.price)
  {
    SweepTrims(b.Get(taker.side.Opposite()), taker);
  }

  lemma SettleUncrossed(b: Book, taker: Order)
    requires Valid(b) && Uncrossed(b)
    ensures Uncrossed(Settle(b, taker).book)
  {
    var far := taker.side.Opposite();
    SweepTrims(b.Get(far), taker);
    SweepValid(b.Get(far), taker);
    SweepRecedes(b.Get(far), taker);
    var r := Sweep(b.Get(far), taker);
    var swept := b.With(far, r.rest);
    assert Uncrossed(swept);
    if Insertable(swept, taker.(remaining := r.left)) {
      SweptValid(b, taker);
      ResidualShort(b, taker);
      ShortOfFar(swept, taker.side, taker.price);
      InsertUncrossedIff(swept, taker.(remaining := r.left));
    }
  }

  // ---- Changes to a resting order ---------------------------------------------------

  lemma RemoveRecedes(s: seq<Order>, k: nat, side: Side)
    requires ValidSide(s, side) && k < |s|
    ensures RemoveAt(s, k) != [] ==> !Better(side, RemoveAt(s, k)[0].price, s[0].price)
  {
  }

  lemma CancelUncrossed(b: Book, id: nat)
    requires Valid(b) && Uncrossed(b)
    ensures Uncrossed(Cancel(b, id))
  {
    if Cancellable(b, id) {
      var side := HolderOf(b, id);
      var s := b.Get(side);
      RemoveRecedes(s, PosOf(s, id), side);
    }
  }

  lemma ReduceUncrossed(b: Book, id: nat, q: int)
    requires Valid(b) && Uncrossed(b)
    ensures Uncrossed(Reduce(b, id, q))
  {
  }

  /** A replacing modify whose new price meets the best price of the other side. */
  predicate Collides(b: Book, id: nat, q: int, p: int) {
    && ModifyKind(b, id, q, p).Replaced?
    && Meets(b, HolderOf(b, id), p)
  }

  /**
   Modify never matches, so where it is permitted it keeps the book uncrossed exactly when it
   does not collide.
   */
  lemma ModifyUncrossedIff(b: Book, id: nat, q: int, p: int)
    requires Valid(b) && Uncrossed(b) && Permitted(b, id, q, p)
    ensures Uncrossed(Modify(b, id, q, p)) <==> !Collides(b, id, q, p)
  {
    if ModifyKind(b, id, q, p).Replaced? {
      var c := Cancel(b, id);
      CancelValid(b, id);
      CancelUncrossed(b, id);
      ReplacementInsertable(b, id, q, p);
      var o := OrderOf(b, id);
      assert o.side == HolderOf(b, id);
      CancelElsewhere(b, id);
      hide BookSpec.Cancel;
      hide PosOf;
      hide Enqueue;
      hide Valid;
      InsertUncrossedIff(c, Requoted(o, q, p));
    }
  }

  /** A replacement at a price of the other side reaches that side. */
  lemma SharedCollides(b: Book, id: nat, q: int, p: int)
    requires Valid(b) && !Permitted(b, id, q, p)
    ensures Collides(b, id, q, p)
  {
    if !Meets(b, HolderOf(b, id), p) {
      ShortOfFar(b, HolderOf(b, id), p);
    }
  }

  lemma EnqueueFront(s: seq<Order>, o: Order)
    requires ValidSide(s, o.side)
    ensures s != [] ==> !Better(o.side, s[0].price, Enqueue(s, o)[0].price)
  {
  }

  // ---- Runs ---------------------------------------------------------------------------

  predicate Harmless(e: Engine, c: Command) {
    c.Change? && c.instrument in e.books ==> !Collides(e.books[c.instrument], c.id, c.qty, c.price)
  }

  predicate HarmlessRun(e: Engine, cs: seq<Command>)
    decreases |cs|
  {
    cs == [] || (Harmless(e, cs[0]) && HarmlessRun(Next(e, cs[0]), cs[1..]))
  }

  /** The commands that the level store can carry out: no replacement at a price of the other side. */
  ghost predicate Allowed(e: Engine, c: Command) {
    c.Change? && c.instrument in e.books ==> Permitted(e.books[c.instrument], c.id, c.qty, c.price)
  }

  ghost predicate AllowedRun(e: Engine, cs: seq<Command>)
    decreases |cs|
  {
    cs == [] || (Allowed(e, cs[0]) && AllowedRun(Next(e, cs[0]), cs[1..]))
  }

  /** In a sound engine, what does not collide is allowed. */
  lemma HarmlessAllowed(e: Engine, c: Command)
    requires Sound(e) && Harmless(e, c)
    ensures Allowed(e, c)
  {
    if c.Change? && c.instrument in e.books && !Allowed(e, c) {
      SharedCollides(e.books[c.instrument], c.id, c.qty, c.price);
    }
  }

  lemma OnBookSound(e: Engine, i: nat, b: Book)
    requires Sound(e) && Valid(b) && Uncrossed(b)
    ensures Sound(OnBook(e, i, b))
  {
  }

  lemma SubmitSound(e: Engine, o: Order, gate: Option<string>)
    requires Sound(e)
    ensures Sound(Submit(e, o, gate).engine)
  {
    if Objection(e, o, gate).None? {
      var taker := Sequenced(e, o);
      SettleValid(e.books[o.instrument], taker);
      SettleUncrossed(e.books[o.instrument], taker);
      OnBookSound(e, o.instrument, Settle(e.books[o.instrument], taker).book);
    }
  }

  lemma ChangeSound(e: Engine, c: Command)
    requires Sound(e) && Harmless(e, c) && c.Change? && c.instrument in e.books
    ensures Sound(Next(e, c))
  {
    var b := e.books[c.instrument];
    HarmlessAllowed(e, c);
    ModifyValid(b, c.id, c.qty, c.price);
    ModifyUncrossedIff(b, c.id, c.qty, c.price);
    hide Valid;
    hide Uncrossed;
    hide BookSpec.Modify;
    hide Collides;
    OnBookSound(e, c.instrument, Modify(b, c.id, c.qty, c.price));
  }

  lemma WithdrawSound(e: Engine, i: nat, id: nat)
    requires Sound(e) && i in e.books
    ensures Sound(OnBook(e, i, Cancel(e.books[i], id)))
  {
    CancelValid(e.books[i], id);
    CancelUncrossed(e.books[i], id);
    OnBookSound(e, i, Cancel(e.books[i], id));
  }

  lemma TrimSound(e: Engine, i: nat, id: nat, q: int)
    requires Sound(e) && i in e.books
    ensures Sound(OnBook(e, i, Reduce(e.books[i], id, q)))
  {
    ReduceValid(e.books[i], id, q);
    ReduceUncrossed(e.books[i], id, q);
    OnBookSound(e, i, Reduce(e.books[i], id, q));
  }

  lemma StepSound(e: Engine, c: Command)
    requires Sound(e) && Harmless(e, c)
    ensures Sound(Next(e, c))
  {
    assert Valid(EMPTY) && Uncrossed(EMPTY);
    hide Valid;
    hide Uncrossed;
    hide BookSpec.Cancel;
    hide BookSpec.Modify;
    hide BookSpec.Reduce;
    hide EngineSpec.Submit;
    hide Harmless;
    match c
    case Enter(o, gate) => SubmitSound(e, o, gate);
    case Withdraw(i, id) => if i in e.books { WithdrawSound(e, i, id); }
    case Change(i, id, q, p) => if i in e.books { ChangeSound(e, c); }
    case Trim(i, id, q) => if i in e.books { TrimSound(e, i, id, q); }
    case Register(i) => OnBookSound(e, i, EMPTY);
    case Unregister(i) =>
  }

  /** Well-formed books, crossed or not. */
  ghost predicate AllValid(e: Engine) {
    forall i :: i in e.books ==> Valid(e.books[i])
  }

  /** No allowed command breaks a book. */
  lemma StepValid(e: Engine, c: Command)
    requires AllValid(e) && Allowed(e, c)
    ensures AllValid(Next(e, c))
  {
    if c.Enter? {
      if Objection(e, c.order, c.gate).None? {
        SettleValid(e.books[c.order.instrument], Sequenced(e, c.order));
      }
    } else if c.instrument in e.books {
      var b := e.books[c.instrument];
      match c
      case Withdraw(i, id) => CancelValid(b, id);
      case Change(i, id, q, p) => ModifyValid(b, id, q, p);
      case Trim(i, id, q) => ReduceValid(b, id, q);
      case _ =>
    }
  }

  /**
   Over every run without a colliding modify, no book is ever crossed or locked, and every
   command is one that the level store can carry out.
   */
  lemma {:induction false} RunSound(e: Engine, cs: seq<Command>)
    requires Sound(e) && HarmlessRun(e, cs)
    ensures Sound(Run(e, cs)) && AllowedRun(e, cs)
    decreases |cs|
  {
    hide Sound;
    hide Harmless;
    hide Allowed;
    hide Next;
    if cs != [] {
      StepSound(e, cs[0]);
      HarmlessAllowed(e, cs[0]);
      RunSound(Next(e, cs[0]), cs[1..]);
    }
  }

  lemma {:induction false} RunValid(e: Engine, cs: seq<Command>)
    requires AllValid(e) && AllowedRun(e, cs)
    ensures AllValid(Run(e, cs))
    decreases |cs|
  {
    if cs != [] {
      StepValid(e, cs[0]);
      RunValid(Next(e, cs[0]), cs[1..]);
    }
  }

  /** In an uncrossed book no price rests on both sides. */
  lemma NoSharedPrice(b: Book, i: nat, j: nat)
    requires Valid(b) && Uncrossed(b) && i < |b.bids| && j < |b.asks|
    ensures b.bids[i].price < b.asks[j].price
  {
    assert i > 0 ==> !Better(Buy, b.bids[i].price, b.bids[0].price);
    assert j > 0 ==> !Better(Sell, b.asks[j].price, b.asks[0].price);
  }
}
