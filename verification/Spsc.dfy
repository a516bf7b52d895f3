/**
 The single-producer single-consumer ring. The two threads are interleaved step by step.
 Each cursor keeps all values ever stored to it, and a thread that loads the other side's
 cursor may obtain any value not older than the one it saw last.
 */
module Spsc {
  import opened Bits
  import opened Bytes

  /** The compile-time conditions on the number of slots. */
  predicate Capacity(n: nat) {
    1 < n < TWO_64 && And(n, n - 1) == 0
  }

  function Slot(n: nat, cursor: nat): (k: nat)
    requires n > 0
    ensures k < n
  {
    And(cursor, n - 1)
  }

  // ---- Steps ---------------------------------------------------------------------------

  datatype Producer<T> = Ready | Writing(value: T, tail: nat) | Publishing(value: T, tail: nat)

  datatype Consumer<T> = Idle | Reading(head: nat) | Returning(head: nat, value: T)

  /** Shared memory, what each thread last saw of the other's cursor, both threads, and the history. */
  datatype State<T> = State(
    buffer: seq<T>,
    heads: seq<nat>,
    tails: seq<nat>,
    headSeen: nat,
    tailSeen: nat,
    producer: Producer<T>,
    consumer: Consumer<T>,
    pushed: seq<T>,
    popped: seq<T>)

  datatype Action<T> =
    | PushLoad(value: T, headAt: nat)
    | PushWrite
    | PushPublish
    | PopLoad(tailAt: nat)
    | PopRead
    | PopPublish

  predicate Shaped<T>(n: nat, s: State<T>) {
    n > 0 && |s.buffer| == n && s.heads != [] && s.tails != []
  }

  function Head<T>(s: State<T>): nat
    requires s.heads != []
  {
    s.heads[|s.heads| - 1]
  }

  function Tail<T>(s: State<T>): nat
    requires s.tails != []
  {
    s.tails[|s.tails| - 1]
  }

  predicate Enabled<T>(n: nat, s: State<T>, a: Action<T>) {
    Shaped(n, s) &&
    match a
    case PushLoad(v, k) => s.producer.Ready? && s.headSeen <= k < |s.heads|
    case PushWrite => s.producer.Writing?
    case PushPublish => s.producer.Publishing?
    case PopLoad(k) => s.consumer.Idle? && s.tailSeen <= k < |s.tails|
    case PopRead => s.consumer.Reading?
    case PopPublish => s.consumer.Returning?
  }

  function Step<T>(n: nat, s: State<T>, a: Action<T>): State<T>
    requires Enabled(n, s, a)
  {
    match a
    case PushLoad(v, k) =>
      var seen := s.(headSeen := k);
      if Wrap(Tail(s) - s.heads[k]) == n then seen else seen.(producer := Writing(v, Tail(s)))
    case PushWrite =>
      s.(buffer := s.buffer[Slot(n, s.producer.tail) := s.producer.value],
         producer := Publishing(s.producer.value, s.producer.tail))
    case PushPublish =>
      s.(tails := s.tails + [Wrap(s.producer.tail + 1)], producer := Ready,
         pushed := s.pushed + [s.producer.value])
    case PopLoad(k) =>
      var seen := s.(tailSeen := k);
      if Head(s) == s.tails[k] then seen else seen.(consumer := Reading(Head(s)))
    case PopRead =>
      s.(consumer := Returning(s.consumer.head, s.buffer[Slot(n, s.consumer.head)]))
    case PopPublish =>
      s.(heads := s.heads + [Wrap(s.consumer.head + 1)], consumer := Idle,
         popped := s.popped + [s.consumer.value])
  }

  ghost predicate Init<T>(n: nat, s: State<T>) {
    && Capacity(n) && |s.buffer| == n
    && s.heads == [0] && s.tails == [0] && s.headSeen == 0 && s.tailSeen == 0
    && s.producer.Ready? && s.consumer.Idle? && s.pushed == [] && s.popped == []
  }

  ghost predicate Behaviour<T>(n: nat, s: State<T>, acts: seq<Action<T>>)
    decreases |acts|
  {
    acts == [] || (Enabled(n, s, acts[0]) && Behaviour(n, Step(n, s, acts[0]), acts[1..]))
  }

  ghost function After<T>(n: nat, s: State<T>, acts: seq<Action<T>>): State<T>
    requires Behaviour(n, s, acts)
    decreases |acts|
  {
    if acts == [] then s else After(n, Step(n, s, acts[0]), acts[1..])
  }

  // ---- What is to be shown -----------------------------------------------------------------

  /** Number of published and not yet consumed values, as the wrapped cursors tell it. */
  function Size<T>(s: State<T>): nat
    requires s.heads != [] && s.tails != []
  {
    Wrap(Tail(s) - Head(s))
  }

  /** The slot of the i-th value waiting in the queue. */
  function SlotAt<T>(n: nat, s: State<T>, i: nat): nat
    requires Shaped(n, s)
  {
    Slot(n, Wrap(Head(s) + i))
  }

  function Contents<T>(n: nat, s: State<T>): (c: seq<T>)
    requires Shaped(n, s)
    ensures |c| == Size(s)
  {
    seq(Size(s), i requires i >= 0 => s.buffer[SlotAt(n, s, i)])
  }

  ghost predicate Safe<T>(n: nat, s: State<T>) {
    && Shaped(n, s)
    && Size(s) <= n
    && s.pushed == s.popped + Contents(n, s)
    // A slot being written holds no unread value, so it is not the one being read.
    && (s.producer.Writing? ==> forall i :: 0 <= i < Size(s) ==> SlotAt(n, s, i) != Slot(n, s.producer.tail))
    && (s.consumer.Reading? ==> Size(s) > 0 && Slot(n, s.consumer.head) == SlotAt(n, s, 0))
  }

  // ---- The invariant, over unbounded cursors -------------------------------------------------

  /** The slot that an unbounded cursor belongs to. */
  function Cell(n: nat, k: nat): (c: nat)
    requires n > 0
    ensures c < n
  {
    k % n
  }

  ghost predicate Counting(cs: seq<nat>) {
    cs != [] && forall k :: 0 <= k < |cs| ==> cs[k] == Wrap(k)
  }

  ghost predicate Cursors<T>(n: nat, s: State<T>) {
    && Shaped(n, s) && Counting(s.heads) && Counting(s.tails)
    && |s.popped| == |s.heads| - 1 && |s.pushed| == |s.tails| - 1
    && s.headSeen <= |s.popped| <= s.tailSeen <= |s.pushed| <= s.headSeen + n
  }

  ghost predicate Data<T>(n: nat, s: State<T>)
    requires Cursors(n, s)
  {
    && s.popped == s.pushed[..|s.popped|]
    && forall k :: |s.popped| <= k < |s.pushed| ==> s.buffer[Cell(n, k)] == s.pushed[k]
  }

  ghost predicate Locals<T>(n: nat, s: State<T>)
    requires Cursors(n, s)
  {
    && (!s.producer.Ready? ==> s.producer.tail == Wrap(|s.pushed|) && |s.pushed| < s.headSeen + n)
    && (s.producer.Publishing? ==> s.buffer[Cell(n, |s.pushed|)] == s.producer.value)
    && (!s.consumer.Idle? ==> s.consumer.head == Wrap(|s.popped|) && |s.popped| < s.tailSeen)
    && (s.consumer.Returning? ==> s.consumer.value == s.pushed[|s.popped|])
  }

  ghost predicate Inv<T>(n: nat, s: State<T>) {
    Capacity(n) && Cursors(n, s) && Data(n, s) && Locals(n, s)
  }

  // ---- Arithmetic of wrapped cursors ---------------------------------------------------------

  /** A wrapped cursor selects the same slot as the unbounded one, because n divides 2^64. */
  lemma SlotOfWrapped(n: nat, k: nat)
    requires Capacity(n)
    ensures Slot(n, Wrap(k)) == Cell(n, k)
  {
    PowerOfTwoIff(n);
    var m: nat :| n == Pow2(m);
    MaskIsMod(Wrap(k), m);
    TwoTo64();
    if m > 64 {
      Pow2Monotone(64, m);
    }
    Pow2Add(m, 64 - m);
    ModOfWrapped(k, n, Pow2(64 - m));
  }

  lemma TwoTo64()
    ensures Pow2(64) == TWO_64
  {
    assert Pow2(4) == 16;
    hide Pow2;
    Pow2Add(4, 4);
    assert Pow2(8) == 0x100;
    Pow2Add(8, 8);
    assert Pow2(16) == 0x1_0000;
    Pow2Add(16, 16);
    assert Pow2(32) == 0x1_0000_0000;
    Pow2Add(32, 32);
  }

  lemma ModOfWrapped(k: nat, n: nat, d: nat)
    requires n > 0 && d > 0 && n * d == TWO_64
    ensures (k % TWO_64) % n == k % n
  {
    var q, w := k / TWO_64, k % TWO_64;
    assert k == q * TWO_64 + w;
    assert w == (w / n) * n + w % n;
    assert q * (n * d) == (q * d) * n;
    assert k == (q * d + w / n) * n + w % n;
    ModUnique(k, n, q * d + w / n, w % n);
  }

  /** Cursors less than n apart select different slots. */
  lemma SlotsApart(j: nat, k: nat, n: nat)
    requires n > 0 && j < k < j + n
    ensures Cell(n, j) != Cell(n, k)
  {
    if j % n == k % n {
      var a, b := j / n, k / n;
      assert j == a * n + j % n && k == b * n + k % n;
      assert k - j == (b - a) * n;
      MulAway(b - a, n);
      assert false;
    }
  }

  /** Subtracting wrapped cursors gives the true distance when it fits. */
  lemma WrappedDistance(j: nat, k: nat)
    requires j <= k < j + TWO_64
    ensures Wrap(Wrap(k) - Wrap(j)) == k - j
  {
    var a, b := j / TWO_64, k / TWO_64;
    assert Wrap(k) - Wrap(j) == (a - b) * TWO_64 + (k - j);
    ModUnique(Wrap(k) - Wrap(j), TWO_64, a - b, k - j);
  }

  lemma SameWrap(j: nat, k: nat)
    requires j <= k < j + TWO_64
    ensures Wrap(j) == Wrap(k) <==> j == k
  {
    WrappedDistance(j, k);
  }

  lemma WrapAdd(k: nat, i: nat)
    ensures Wrap(Wrap(k) + i) == Wrap(k + i)
  {
  }

  // ---- Every step keeps the invariant ----------------------------------------------------------

  lemma PushLoadInv<T>(n: nat, s: State<T>, v: T, k: nat)
    requires Inv(n, s) && Enabled(n, s, PushLoad(v, k))
    ensures Inv(n, Step(n, s, PushLoad(v, k)))
    ensures Step(n, s, PushLoad(v, k)).producer.Ready? <==> |s.pushed| - k == n
  {
    WrappedDistance(k, |s.pushed|);
    hide Wrap;
    hide And;
    hide Cell;
  }

  lemma PushWriteInv<T>(n: nat, s: State<T>)
    requires Inv(n, s) && Enabled(n, s, PushWrite)
    ensures Inv(n, Step(n, s, PushWrite))
  {
    var t := |s.pushed|;
    SlotOfWrapped(n, t);
    forall k | |s.popped| <= k < t ensures Cell(n, k) != Cell(n, t) {
      SlotsApart(k, t, n);
    }
    hide Slot;
    hide Cell;
  }

  lemma PushPublishInv<T>(n: nat, s: State<T>)
    requires Inv(n, s) && Enabled(n, s, PushPublish)
    ensures Inv(n, Step(n, s, PushPublish))
  {
    WrapAdd(|s.pushed|, 1);
    hide Wrap;
    hide Cell;
    var r := Step(n, s, PushPublish);
    assert r.pushed[..|s.popped|] == s.pushed[..|s.popped|];
  }

  lemma PopLoadInv<T>(n: nat, s: State<T>, k: nat)
    requires Inv(n, s) && Enabled(n, s, PopLoad(k))
    ensures Inv(n, Step(n, s, PopLoad(k)))
    ensures Step(n, s, PopLoad(k)).consumer.Idle? <==> k == |s.popped|
  {
    SameWrap(|s.popped|, k);
    hide Wrap;
    hide And;
    hide Cell;
  }

  lemma PopReadInv<T>(n: nat, s: State<T>)
    requires Inv(n, s) && Enabled(n, s, PopRead)
    ensures Inv(n, Step(n, s, PopRead))
  {
    SlotOfWrapped(n, |s.popped|);
    hide Slot;
    hide Cell;
  }

  lemma PopPublishInv<T>(n: nat, s: State<T>)
    requires Inv(n, s) && Enabled(n, s, PopPublish)
    ensures Inv(n, Step(n, s, PopPublish))
  {
    WrapAdd(|s.popped|, 1);
    hide Wrap;
    hide Cell;
    var h := |s.popped|;
    assert s.pushed[..h + 1] == s.pushed[..h] + [s.pushed[h]];
  }

  lemma StepInv<T>(n: nat, s: State<T>, a: Action<T>)
    requires Inv(n, s) && Enabled(n, s, a)
    ensures Inv(n, Step(n, s, a))
  {
    hide Inv;
    match a
    case PushLoad(v, k) => PushLoadInv(n, s, v, k);
    case PushWrite => PushWriteInv(n, s);
    case PushPublish => PushPublishInv(n, s);
    case PopLoad(k) => PopLoadInv(n, s, k);
    case PopRead => PopReadInv(n, s);
    case PopPublish => PopPublishInv(n, s);
  }

  // ---- The invariant implies safety --------------------------------------------------------------

  lemma InvSlotAt<T>(n: nat, s: State<T>, i: nat)
    requires Inv(n, s)
    ensures SlotAt(n, s, i) == Cell(n, |s.popped| + i)
  {
    WrapAdd(|s.popped|, i);
    SlotOfWrapped(n, |s.popped| + i);
    hide Wrap;
    hide Slot;
    hide Cell;
    hide Data;
    hide Locals;
  }

  lemma InvContents<T>(n: nat, s: State<T>)
    requires Inv(n, s)
    ensures Size(s) == |s.pushed| - |s.popped|
    ensures Contents(n, s) == s.pushed[|s.popped|..]
  {
    var h, t := |s.popped|, |s.pushed|;
    WrappedDistance(h, t);
    hide Wrap;
    hide And;
    hide Cell;
    hide Locals;
    assert Size(s) == t - h;
    hide SlotAt;
    forall i | 0 <= i < t - h ensures Contents(n, s)[i] == s.pushed[h + i] {
      InvSlotAt(n, s, i);
    }
  }

  /** A slot being written holds no unread value. */
  lemma WritesFree<T>(n: nat, s: State<T>, i: nat)
    requires Inv(n, s) && s.producer.Writing? && i < |s.pushed| - |s.popped|
    ensures SlotAt(n, s, i) != Slot(n, s.producer.tail)
  {
    InvSlotAt(n, s, i);
    SlotOfWrapped(n, |s.pushed|);
    SlotsApart(|s.popped| + i, |s.pushed|, n);
    hide Wrap;
    hide Slot;
    hide SlotAt;
    hide And;
    hide Cell;
    hide Data;
  }

  lemma ReadsFirst<T>(n: nat, s: State<T>)
    requires Inv(n, s) && s.consumer.Reading?
    ensures |s.popped| < |s.pushed| && Slot(n, s.consumer.head) == SlotAt(n, s, 0)
  {
    InvSlotAt(n, s, 0);
    SlotOfWrapped(n, |s.popped|);
    hide Wrap;
    hide Slot;
    hide SlotAt;
    hide And;
    hide Cell;
    hide Data;
  }

  lemma InvSafe<T>(n: nat, s: State<T>)
    requires Inv(n, s)
    ensures Safe(n, s) && Size(s) == |s.pushed| - |s.popped|
  {
    InvContents(n, s);
    hide Capacity;
    hide Counting;
    hide Locals;
    hide Slot;
    hide SlotAt;
    hide Contents;
    hide Size;
    if s.producer.Writing? {
      forall i | 0 <= i < Size(s) ensures SlotAt(n, s, i) != Slot(n, s.producer.tail) {
        WritesFree(n, s, i);
      }
    }
    if s.consumer.Reading? {
      ReadsFirst(n, s);
    }
  }

  /** Every interleaving, with any stale cursor reads and any number of wrap-arounds, is safe. */
  lemma {:induction false} AllBehavioursSafe<T>(n: nat, s: State<T>, acts: seq<Action<T>>)
    requires Inv(n, s) && Behaviour(n, s, acts)
    ensures Inv(n, After(n, s, acts)) && Safe(n, After(n, s, acts))
    decreases |acts|
  {
    if acts == [] {
      InvSafe(n, s);
    } else {
      StepInv(n, s, acts[0]);
      AllBehavioursSafe(n, Step(n, s, acts[0]), acts[1..]);
    }
  }

  lemma QueueSafe<T>(n: nat, s: State<T>, acts: seq<Action<T>>)
    requires Init(n, s) && Behaviour(n, s, acts)
    ensures Safe(n, After(n, s, acts))
  {
    assert Inv(n, s);
    AllBehavioursSafe(n, s, acts);
  }

  /**
   A push is refused exactly when the head it saw is a full ring behind, and a pop exactly when
   the tail it saw is its own head. With up-to-date loads that is a full and an empty queue.
   */
  lemma RefusalIff<T>(n: nat, s: State<T>, v: T)
    requires Inv(n, s) && s.producer.Ready? && s.consumer.Idle?
    ensures Step(n, s, PushLoad(v, |s.heads| - 1)).producer.Ready? <==> |Contents(n, s)| == n
    ensures Step(n, s, PopLoad(|s.tails| - 1)).consumer.Idle? <==> Contents(n, s) == []
  {
    InvSafe(n, s);
    PushLoadInv(n, s, v, |s.heads| - 1);
    PopLoadInv(n, s, |s.tails| - 1);
  }

  /** Wrapping is harmless exactly for numbers of slots that divide 2^64. */
  lemma WrapHarmlessIff(n: nat)
    requires n > 0
    ensures (forall k: nat :: Wrap(k) % n == k % n) <==> TWO_64 % n == 0
  {
    if TWO_64 % n == 0 {
      forall k: nat ensures Wrap(k) % n == k % n {
        ModOfWrapped(k, n, TWO_64 / n);
      }
    } else {
      assert Wrap(TWO_64) % n == 0;
    }
  }

  // ---- The queue object, used by one thread at a time ---------------------------------------------

  /** A whole push or pop, undisturbed and with up-to-date loads, as the steps it consists of. */
  function PushSteps<T>(s: State<T>, v: T): seq<Action<T>>
    requires s.heads != []
  {
    [PushLoad(v, |s.heads| - 1), PushWrite, PushPublish]
  }

  function PopSteps<T>(s: State<T>): seq<Action<T>>
    requires s.tails != []
  {
    [PopLoad(|s.tails| - 1), PopRead, PopPublish]
  }

  lemma ThreeSteps<T>(n: nat, s: State<T>, a: Action<T>, b: Action<T>, c: Action<T>)
    requires Inv(n, s) && Enabled(n, s, a)
    requires Enabled(n, Step(n, s, a), b)
    requires Enabled(n, Step(n, Step(n, s, a), b), c)
    ensures Behaviour(n, s, [a, b, c])
    ensures After(n, s, [a, b, c]) == Step(n, Step(n, Step(n, s, a), b), c)
    ensures Inv(n, After(n, s, [a, b, c]))
  {
    hide Inv;
    hide Step;
    hide Enabled;
    var s1, s2 := Step(n, s, a), Step(n, Step(n, s, a), b);
    StepInv(n, s, a);
    StepInv(n, s1, b);
    StepInv(n, s2, c);
    assert [c] + [] == [c] && [b] + [c] == [b, c] && [a] + [b, c] == [a, b, c];
    FirstStep(n, s2, c, []);
    FirstStep(n, s1, b, [c]);
    FirstStep(n, s, a, [b, c]);
  }

  lemma FirstStep<T>(n: nat, s: State<T>, a: Action<T>, more: seq<Action<T>>)
    requires Enabled(n, s, a) && Behaviour(n, Step(n, s, a), more)
    ensures Behaviour(n, s, [a] + more) && After(n, s, [a] + more) == After(n, Step(n, s, a), more)
  {
    hide Step;
    hide Enabled;
    assert ([a] + more)[1..] == more;
  }

  /** The state after a whole push into a queue that is not full, and a whole pop from one not empty. */
  function Enqueued<T>(n: nat, s: State<T>, v: T): State<T>
    requires Shaped(n, s)
  {
    s.(buffer := s.buffer[Slot(n, Tail(s)) := v], tails := s.tails + [Wrap(Tail(s) + 1)],
       headSeen := |s.heads| - 1, pushed := s.pushed + [v])
  }

  function Dequeued<T>(n: nat, s: State<T>): State<T>
    requires Shaped(n, s)
  {
    s.(heads := s.heads + [Wrap(Head(s) + 1)], tailSeen := |s.tails| - 1,
       popped := s.popped + [s.buffer[Slot(n, Head(s))]])
  }

  lemma PushRuns<T>(n: nat, s: State<T>, v: T)
    requires Inv(n, s) && s.producer.Ready? && s.consumer.Idle? && Wrap(Tail(s) - Head(s)) != n
    ensures Behaviour(n, s, PushSteps(s, v)) && Enqueued(n, s, v) == After(n, s, PushSteps(s, v))
    ensures Inv(n, Enqueued(n, s, v))
  {
    hide Wrap;
    hide Slot;
    hide Capacity;
    hide Data;
    hide Locals;
    hide Counting;
    hide After;
    hide Behaviour;
    ThreeSteps(n, s, PushLoad(v, |s.heads| - 1), PushWrite, PushPublish);
  }

  lemma PopRuns<T>(n: nat, s: State<T>)
    requires Inv(n, s) && s.producer.Ready? && s.consumer.Idle? && Head(s) != Tail(s)
    ensures Behaviour(n, s, PopSteps(s)) && Dequeued(n, s) == After(n, s, PopSteps(s))
    ensures Inv(n, Dequeued(n, s))
  {
    hide Wrap;
    hide Slot;
    hide Capacity;
    hide Data;
    hide Locals;
    hide Counting;
    hide After;
    hide Behaviour;
    ThreeSteps(n, s, PopLoad(|s.tails| - 1), PopRead, PopPublish);
  }

  /** Loading the other cursor changes nothing else. */
  lemma LoadKeeps<T>(n: nat, s: State<T>, r: State<T>)
    requires Inv(n, s) && (r == s.(headSeen := |s.heads| - 1) || r == s.(tailSeen := |s.tails| - 1))
    requires s.producer.Ready? && s.consumer.Idle?
    ensures Inv(n, r) && Contents(n, r) == Contents(n, s)
  {
    hide Wrap;
    hide Slot;
    hide Capacity;
    hide Counting;
    hide Cell;
    hide SlotAt;
    assert Inv(n, r);
    InvContents(n, s);
    InvContents(n, r);
  }

  lemma PushWhole<T>(n: nat, s: State<T>, v: T)
    requires Inv(n, s) && s.producer.Ready? && s.consumer.Idle?
    ensures Shaped(n, s) && |Contents(n, s)| <= n
    ensures Wrap(Tail(s) - Head(s)) == n <==> |Contents(n, s)| == n
    ensures |Contents(n, s)| == n ==>
              var r := s.(headSeen := |s.heads| - 1); Inv(n, r) && Contents(n, r) == Contents(n, s)
    ensures |Contents(n, s)| < n ==>
              var r := Enqueued(n, s, v);
              && Behaviour(n, s, PushSteps(s, v)) && r == After(n, s, PushSteps(s, v))
              && Inv(n, r) && Contents(n, r) == Contents(n, s) + [v]
  {
    InvSafe(n, s);
    LoadKeeps(n, s, s.(headSeen := |s.heads| - 1));
    hide Inv;
    hide Wrap;
    hide Contents;
    hide After;
    hide Behaviour;
    hide Slot;
    if Size(s) < n {
      PushRuns(n, s, v);
      var r := Enqueued(n, s, v);
      InvSafe(n, r);
      AppendContents(s.popped, Contents(n, s), Contents(n, r), v);
    }
  }

  lemma PopWhole<T>(n: nat, s: State<T>)
    requires Inv(n, s) && s.producer.Ready? && s.consumer.Idle?
    ensures Shaped(n, s)
    ensures Head(s) == Tail(s) <==> Contents(n, s) == []
    ensures Contents(n, s) == [] ==>
              var r := s.(tailSeen := |s.tails| - 1); Inv(n, r) && Contents(n, r) == []
    ensures Contents(n, s) != [] ==>
              var r := Dequeued(n, s);
              && Behaviour(n, s, PopSteps(s)) && r == After(n, s, PopSteps(s))
              && Inv(n, r) && Contents(n, s) == [s.buffer[Slot(n, Head(s))]] + Contents(n, r)
  {
    InvSafe(n, s);
    LoadKeeps(n, s, s.(tailSeen := |s.tails| - 1));
    SameWrap(|s.popped|, |s.pushed|);
    assert Head(s) == Tail(s) <==> Size(s) == 0;
    hide Inv;
    hide Wrap;
    hide Contents;
    hide After;
    hide Behaviour;
    hide Slot;
    if Size(s) > 0 {
      PopRuns(n, s);
      var r := Dequeued(n, s);
      InvSafe(n, r);
      TakeContents(s.popped, Contents(n, s), Contents(n, r), s.buffer[Slot(n, Head(s))]);
    }
  }

  lemma AppendContents<T>(p: seq<T>, c: seq<T>, d: seq<T>, v: T)
    requires p + c + [v] == p + d
    ensures d == c + [v]
  {
    assert p + (c + [v]) == p + d;
    assert (p + d)[|p|..] == d && (p + (c + [v]))[|p|..] == c + [v];
  }

  lemma TakeContents<T>(p: seq<T>, c: seq<T>, d: seq<T>, v: T)
    requires p + c == p + [v] + d
    ensures c == [v] + d
  {
    assert p + c == p + ([v] + d);
    assert (p + c)[|p|..] == c && (p + ([v] + d))[|p|..] == [v] + d;
  }

  class SpscQueue<T(0)> {
    const slots: nat
    const buffer: array<T>
    var head: nat
    var tail: nat
    ghost var heads: seq<nat>
    ghost var tails: seq<nat>
    ghost var headSeen: nat
    ghost var tailSeen: nat
    ghost var pushed: seq<T>
    ghost var popped: seq<T>

    ghost function View(): State<T>
      reads this, buffer
    {
      State(buffer[..], heads, tails, headSeen, tailSeen, Ready, Idle, pushed, popped)
    }

    ghost predicate Valid()
      reads this, buffer
    {
      Inv(slots, View()) && head == Head(View()) && tail == Tail(View())
    }

    ghost function Waiting(): seq<T>
      requires Valid()
      reads this, buffer
    {
      Contents(slots, View())
    }

    constructor (n: nat)
      requires Capacity(n)
      ensures Valid() && slots == n && fresh(buffer) && Waiting() == []
    {
      slots := n;
      buffer := new T[n];
      head, tail := 0, 0;
      heads, tails, headSeen, tailSeen, pushed, popped := [0], [0], 0, 0, [], [];
      new;
      assert Init(slots, View());
      InvSafe(slots, View());
    }

    method Push(v: T) returns (ok: bool)
      requires Valid()
      modifies this, buffer
      ensures Valid()
      ensures ok == (|old(Waiting())| < slots)
      ensures Waiting() == if ok then old(Waiting()) + [v] else old(Waiting())
      ensures ok ==> Behaviour(slots, old(View()), PushSteps(old(View()), v))
      ensures ok ==> View() == After(slots, old(View()), PushSteps(old(View()), v))
    {
      hide Inv;
      hide Contents;
      hide After;
      hide Behaviour;
      hide Slot;
      PushWhole(slots, View(), v);
      headSeen := |heads| - 1;
      if Wrap(tail - head) == slots {
        return false;
      }
      buffer[Slot(slots, tail)] := v;
      tails, pushed := tails + [Wrap(tail + 1)], pushed + [v];
      tail := Wrap(tail + 1);
      assert View() == Enqueued(slots, old(View()), v);
      ok := true;
    }

    method Pop() returns (ok: bool, v: T)
      requires Valid()
      modifies this
      ensures Valid()
      ensures ok == (old(Waiting()) != [])
      ensures ok ==> old(Waiting()) == [v] + Waiting()
      ensures !ok ==> Waiting() == old(Waiting())
      ensures ok ==> Behaviour(slots, old(View()), PopSteps(old(View())))
      ensures ok ==> View() == After(slots, old(View()), PopSteps(old(View())))
    {
      hide Inv;
      hide Contents;
      hide After;
      hide Behaviour;
      hide Slot;
      PopWhole(slots, View());
      tailSeen := |tails| - 1;
      if head == tail {
        ok, v := false, *;
        return;
      }
      v := buffer[Slot(slots, head)];
      heads, popped := heads + [Wrap(head + 1)], popped + [v];
      head := Wrap(head + 1);
      assert View() == Dequeued(slots, old(View()));
      ok := true;
    }
  }
}
