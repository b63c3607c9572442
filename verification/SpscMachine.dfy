/** One producer thread and one consumer thread on the same ring, interleaved at every
    atomic load, slot access and atomic store.

    A push is: load the read index, copy the items slot by slot, store the write index.
    A pop is: load the write index, read the slots one by one, store the read index.
    Between its load and its store each side works from the value it loaded, while the
    other side may move on. The single-element operations are the bulk ones with one item.

    `pushed` and `consumed` record every item published and every item taken so far. */
module SpscMachine {
  import opened Prelude
  import opened SpscIndex
  import opened SpscQueue

  /** An operation under way remembers its argument and `began`, the ring at the instant
      it loaded the other side's index; began.r and began.w are the loaded values. */
  datatype Producer<T> = PIdle | PCopy(input: seq<T>, items: seq<T>, i: nat, began: Ring<T>)
  datatype Consumer<T> = CIdle | CRead(limit: nat, count: nat, out: seq<T>, began: Ring<T>)

  datatype State<T> = State(q: Ring<T>, prod: Producer<T>, cons: Consumer<T>,
                            pushed: seq<T>, consumed: seq<T>)

  datatype Step<T> =
    | StartPush(items: seq<T>)
    | WriteSlot
    | PublishPush
    | StartPop(limit: nat)
    | ReadSlot
    | PublishPop

  ghost predicate Initial<T>(s: State<T>) {
    && Sized(|s.q.buf|) && s.q.w == s.q.r == 0
    && s.prod.PIdle? && s.cons.CIdle? && s.pushed == s.consumed == []
  }

  ghost predicate Enabled<T>(s: State<T>, step: Step<T>) {
    match step
    case StartPush(_) => s.prod.PIdle?
    case WriteSlot => s.prod.PCopy? && s.prod.i < |s.prod.items|
    case PublishPush => s.prod.PCopy? && s.prod.i == |s.prod.items|
    case StartPop(_) => s.cons.CIdle?
    case ReadSlot => s.cons.CRead? && |s.cons.out| < s.cons.count
    case PublishPop => s.cons.CRead? && |s.cons.out| == s.cons.count
  }

  /** How many items a push starting now will copy. */
  function Accepted<T>(s: State<T>, items: seq<T>): nat
    requires s.q.Valid()
  {
    Min(|items|, WriteAvailable(s.q.w, s.q.r, |s.q.buf|))
  }

  function Offered<T>(s: State<T>, limit: nat): nat
    requires s.q.Valid()
  {
    Min(limit, ReadAvailable(s.q.w, s.q.r, |s.q.buf|))
  }

  /** The step touches only slots of the buffer. */
  ghost predicate InBounds<T>(s: State<T>, step: Step<T>) {
    && s.q.Valid()
    && (step.WriteSlot? && s.prod.PCopy? ==> s.prod.i < |s.q.buf|)
    && (step.PublishPush? && s.prod.PCopy? ==> |s.prod.items| <= |s.q.buf|)
    && (step.ReadSlot? && s.cons.CRead? ==> |s.cons.out| < |s.q.buf|)
    && (step.PublishPop? && s.cons.CRead? ==> s.cons.count <= |s.q.buf|)
  }

  ghost function Apply<T>(s: State<T>, step: Step<T>): State<T>
    requires Enabled(s, step) && InBounds(s, step)
  {
    var n := |s.q.buf|;
    match step
    case StartPush(items) =>
      if WriteAvailable(s.q.w, s.q.r, n) == 0 then s
      else s.(prod := PCopy(items, items[..Accepted(s, items)], 0, s.q))
    case WriteSlot =>
      var at := Slot(s.q.w, s.prod.i, n);
      s.(q := s.q.(buf := s.q.buf[at := s.prod.items[s.prod.i]]), prod := s.prod.(i := s.prod.i + 1))
    case PublishPush =>
      s.(q := s.q.(w := Slot(s.q.w, |s.prod.items|, n)), prod := PIdle, pushed := s.pushed + s.prod.items)
    case StartPop(limit) =>
      if ReadAvailable(s.q.w, s.q.r, n) == 0 then s
      else s.(cons := CRead(limit, Offered(s, limit), [], s.q))
    case ReadSlot =>
      var at := Slot(s.q.r, |s.cons.out|, n);
      s.(cons := s.cons.(out := s.cons.out + [s.q.buf[at]]))
    case PublishPop =>
      s.(q := s.q.(r := Slot(s.q.r, s.cons.count, n)), cons := CIdle, consumed := s.consumed + s.cons.out)
  }

  ghost predicate ProducerInv<T>(s: State<T>)
    requires s.q.Valid()
  {
    match s.prod
    case PIdle => true
    case PCopy(input, items, i, began) =>
      var n := |s.q.buf|;
      && |began.buf| == n && began.w == s.q.w && BehindReader(s.q, began.r)
      && items == input[..Min(|input|, WriteAvailable(began.w, began.r, n))]
      && i <= |items|
      && s.q.buf == CopyIn(began.buf, s.q.w, items, i)
  }

  ghost predicate ConsumerInv<T>(s: State<T>)
    requires s.q.Valid()
  {
    match s.cons
    case CIdle => true
    case CRead(limit, count, out, began) =>
      var n := |s.q.buf|;
      && |began.buf| == n && began.r == s.q.r && BehindWriter(s.q, began.w)
      && count == Min(limit, ReadAvailable(began.w, began.r, n))
      && |out| <= count
      && Window(s.q.buf, s.q.r, count) == Window(began.buf, began.r, count)
      && out == Window(began.buf, began.r, |out|)
  }

  ghost predicate Inv<T>(s: State<T>) {
    && s.q.Valid()
    && s.pushed == s.consumed + s.q.Contents()
    && ProducerInv(s)
    && ConsumerInv(s)
  }

  lemma RoomIsStillThere<T>(s: State<T>)
    requires Inv(s) && s.prod.PCopy?
    ensures |s.prod.items| <= WriteAvailable(s.q.w, s.q.r, |s.q.buf|)
  {
    AvailabilityIsComplementary(s.q.w, s.q.r, |s.q.buf|);
    AvailabilityIsComplementary(s.q.w, s.prod.began.r, |s.q.buf|);
  }

  /** Where the producer is about to write: never a published slot. In particular never
      the slot the consumer is about to read. */
  lemma WritesStayOffTheWindow<T>(s: State<T>, j: nat)
    requires Inv(s) && Enabled(s, WriteSlot)
    requires j < ReadAvailable(s.q.w, s.q.r, |s.q.buf|)
    ensures Slot(s.q.w, s.prod.i, |s.q.buf|) != Slot(s.q.r, j, |s.q.buf|)
  {
    var n := |s.q.buf|;
    var len := ReadAvailable(s.q.w, s.q.r, n);
    RoomIsStillThere(s);
    AvailabilityIsComplementary(s.q.w, s.q.r, n);
    SlotsCompose(s.q.r, len, s.prod.i, n);
    SlotsDistinct(s.q.r, j, len + s.prod.i, n);
  }

  lemma NoRace<T>(s: State<T>)
    requires Inv(s) && Enabled(s, WriteSlot) && Enabled(s, ReadSlot)
    ensures Slot(s.q.w, s.prod.i, |s.q.buf|) != Slot(s.q.r, |s.cons.out|, |s.q.buf|)
  {
    WritesStayOffTheWindow(s, |s.cons.out|);
  }

  lemma InitialEstablishesInv<T>(s: State<T>)
    requires Initial(s)
    ensures Inv(s)
  {
  }

  lemma WritePreservesInv<T>(s: State<T>)
    requires Inv(s) && Enabled(s, WriteSlot)
    ensures Inv(Apply(s, WriteSlot)) && Apply(s, WriteSlot).q.Contents() == s.q.Contents()
  {
    var s' := Apply(s, WriteSlot);
    var len := ReadAvailable(s.q.w, s.q.r, |s.q.buf|);
    forall j | 0 <= j < len
      ensures s'.q.buf[Slot(s.q.r, j, |s.q.buf|)] == s.q.buf[Slot(s.q.r, j, |s.q.buf|)]
    {
      WritesStayOffTheWindow(s, j);
    }
    assert s'.q.Contents() == s.q.Contents();
    if s.cons.CRead? {
      var count := s.cons.count;
      assert Window(s'.q.buf, s.q.r, count) == Window(s.q.buf, s.q.r, count);
    }
  }

  /** Moving the write index forward by k adds k to what can be read. */
  lemma AvailableAfterPush(w: nat, r: nat, k: nat, n: nat)
    requires w < n && r < n && Sized(n) && ReadAvailable(w, r, n) + k < n
    ensures Slot(w, k, n) < n && ReadAvailable(Slot(w, k, n), r, n) == ReadAvailable(w, r, n) + k
  {
    SlotsCompose(r, ReadAvailable(w, r, n), k, n);
  }

  lemma AvailableAfterPop(w: nat, r: nat, k: nat, n: nat)
    requires w < n && r < n && Sized(n) && k <= ReadAvailable(w, r, n)
    ensures Slot(r, k, n) < n && ReadAvailable(w, Slot(r, k, n), n) == ReadAvailable(w, r, n) - k
  {
    SlotsCompose(r, k, ReadAvailable(w, r, n) - k, n);
  }

  lemma PublishPushPreservesInv<T>(s: State<T>)
    requires Inv(s) && Enabled(s, PublishPush)
    ensures Inv(Apply(s, PublishPush))
    ensures Apply(s, PublishPush).q.Contents() == s.q.Contents() + s.prod.items
  {
    hide Window; hide CopyIn; hide Slot; hide ReadAvailable; hide WriteAvailable;
    var n := |s.q.buf|;
    RoomIsStillThere(s);
    CopyInExtendsWindow(s.prod.began.buf, s.q.w, s.q.r, s.prod.items);
    CopyInKeepsWindow(s.prod.began.buf, s.q.w, s.q.r, s.prod.items, |s.prod.items|);
    AvailableAfterPush(s.q.w, s.q.r, |s.prod.items|, n);
    var s' := Apply(s, PublishPush);
    assert s'.q.Contents() == s.q.Contents() + s.prod.items;
    assert s.consumed + (s.q.Contents() + s.prod.items) == s.pushed + s.prod.items;
  }

  lemma PublishPopPreservesInv<T>(s: State<T>)
    requires Inv(s) && Enabled(s, PublishPop)
    ensures Inv(Apply(s, PublishPop))
    ensures s.q.Contents() == s.cons.out + Apply(s, PublishPop).q.Contents()
  {
    hide Window; hide CopyIn; hide Slot; hide ReadAvailable; hide WriteAvailable;
    var n := |s.q.buf|;
    var k := s.cons.count;
    var len := ReadAvailable(s.q.w, s.q.r, n);
    WindowSplits(s.q.buf, s.q.r, k, len);
    AvailableAfterPop(s.q.w, s.q.r, k, n);
    var s' := Apply(s, PublishPop);
    assert s.q.Contents() == s.cons.out + s'.q.Contents();
    assert s.consumed + (s.cons.out + s'.q.Contents()) == s'.consumed + s'.q.Contents();
  }

  lemma ReadPreservesInv<T>(s: State<T>)
    requires Inv(s) && Enabled(s, ReadSlot)
    ensures Inv(Apply(s, ReadSlot)) && Apply(s, ReadSlot).q == s.q
  {
    var done := |s.cons.out|;
    assert Window(s.q.buf, s.q.r, s.cons.count)[done] == Window(s.cons.began.buf, s.q.r, s.cons.count)[done];
    assert Window(s.cons.began.buf, s.q.r, done + 1) == s.cons.out + [s.q.buf[Slot(s.q.r, done, |s.q.buf|)]];
  }

  lemma StartPreservesInv<T>(s: State<T>, step: Step<T>)
    requires Inv(s) && Enabled(s, step) && (step.StartPush? || step.StartPop?)
    ensures Inv(Apply(s, step)) && Apply(s, step).q == s.q
  {
    AvailabilityIsComplementary(s.q.w, s.q.r, |s.q.buf|);
  }

  /** What a step does to the abstract queue. */
  ghost predicate FifoStep<T>(before: seq<T>, step: Step<T>, s: State<T>, after: seq<T>) {
    if step.PublishPush? && s.prod.PCopy? then after == before + s.prod.items
    else if step.PublishPop? && s.cons.CRead? then before == s.cons.out + after
    else after == before
  }

  /** Every step stays in bounds, keeps the invariant and is one step of an unbounded first-in first-out
      queue: publishing a push enqueues its items, publishing a pop dequeues exactly the
      oldest ones, everything else is invisible. */
  lemma StepRefinesFifo<T>(s: State<T>, step: Step<T>)
    requires Inv(s) && Enabled(s, step)
    ensures InBounds(s, step) && Inv(Apply(s, step))
    ensures FifoStep(s.q.Contents(), step, s, Apply(s, step).q.Contents())
    ensures |Apply(s, step).q.buf| == |s.q.buf|
  {
    match step
    case StartPush(_) => StartPreservesInv(s, step);
    case WriteSlot => WritePreservesInv(s);
    case PublishPush => PublishPushPreservesInv(s);
    case StartPop(_) => StartPreservesInv(s, step);
    case ReadSlot => ReadPreservesInv(s);
    case PublishPop => PublishPopPreservesInv(s);
  }

  // ---------- whole runs ----------

  /** A run: consecutive states related by one enabled step each. A step out of bounds
      would leave an arbitrary state behind. */
  ghost predicate IsRun<T(!new)>(run: seq<State<T>>) {
    && |run| > 0 && Initial(run[0])
    && forall i :: 0 < i < |run| ==> Moves(run[i - 1], run[i])
  }

  ghost predicate Moves<T(!new)>(s: State<T>, s': State<T>) {
    exists step :: Enabled(s, step) && (InBounds(s, step) ==> s' == Apply(s, step))
  }

  lemma {:induction false} RunKeepsInv<T(!new)>(run: seq<State<T>>, i: nat)
    requires IsRun(run) && i < |run|
    ensures Inv(run[i]) && |run[i].q.buf| == |run[0].q.buf|
  {
    if i == 0 {
      InitialEstablishesInv(run[0]);
    } else {
      RunKeepsInv(run, i - 1);
      assert Moves(run[i - 1], run[i]);
      var step :| Enabled(run[i - 1], step) &&
                  (InBounds(run[i - 1], step) ==> run[i] == Apply(run[i - 1], step));
      StepRefinesFifo(run[i - 1], step);
    }
  }

  lemma ReadSoFarIsInOrder<T>(s: State<T>)
    requires Inv(s) && s.cons.CRead?
    ensures s.consumed + s.cons.out <= s.pushed
  {
    var done := |s.cons.out|;
    var count := s.cons.count;
    WindowSplits(s.q.buf, s.q.r, count, ReadAvailable(s.q.w, s.q.r, |s.q.buf|));
    assert s.cons.out == Window(s.cons.began.buf, s.q.r, count)[..done];
    assert s.cons.out == s.q.Contents()[..done];
  }

  /** In every interleaving: what was consumed, followed by what is published and not yet
      consumed, is exactly what was pushed; even counting the items a pop has read but not
      yet published, consumption is in order; and one slot is always spare. */
  lemma EveryRunIsFirstInFirstOut<T(!new)>(run: seq<State<T>>, i: nat)
    requires IsRun(run) && i < |run|
    ensures run[i].q.Valid()
    ensures run[i].pushed == run[i].consumed + run[i].q.Contents()
    ensures |run[i].q.Contents()| <= |run[0].q.buf| - 1
    ensures run[i].cons.CRead? ==> run[i].consumed + run[i].cons.out <= run[i].pushed
  {
    RunKeepsInv(run, i);
    if run[i].cons.CRead? {
      ReadSoFarIsInOrder(run[i]);
    }
  }

  /** The verdicts are exact at the instant of the load: a push refuses exactly when the queue is full,
      and otherwise sets out to copy as many items as the queue has room for; a pop comes back
      empty-handed exactly when the queue is empty, and otherwise sets out to take what there is, as
      far as it was asked for. */
  lemma VerdictsAreExact<T>(s: State<T>, items: seq<T>, limit: nat)
    requires Inv(s)
    ensures Accepted(s, items) == Min(|items|, |s.q.buf| - 1 - |s.q.Contents()|)
    ensures items != [] ==> (Accepted(s, items) == 0 <==> |s.q.Contents()| == |s.q.buf| - 1)
    ensures Offered(s, limit) == Min(limit, |s.q.Contents()|)
    ensures limit > 0 ==> (Offered(s, limit) == 0 <==> s.q.Contents() == [])
    ensures s.prod.PIdle? ==>
              var room := |s.q.buf| - 1 - |s.q.Contents()|;
              Apply(s, StartPush(items)) ==
              if room == 0 then s else s.(prod := PCopy(items, items[..Min(|items|, room)], 0, s.q))
    ensures s.cons.CIdle? ==>
              var there := |s.q.Contents()|;
              Apply(s, StartPop(limit)) ==
              if there == 0 then s else s.(cons := CRead(limit, Min(limit, there), [], s.q))
  {
    AvailabilityIsComplementary(s.q.w, s.q.r, |s.q.buf|);
  }

  /** Neither side ever waits for the other: whatever the one is doing, the other can start an
      operation with any argument, or take the next step of the one it is in. */
  lemma NeitherSideWaits<T>(s: State<T>, items: seq<T>, limit: nat)
    requires Inv(s)
    ensures if s.prod.PIdle? then Enabled(s, StartPush(items))
            else Enabled(s, if s.prod.i < |s.prod.items| then WriteSlot else PublishPush)
    ensures if s.cons.CIdle? then Enabled(s, StartPop(limit))
            else Enabled(s, if |s.cons.out| < s.cons.count then ReadSlot else PublishPop)
  {
  }

  /** Interference does not change what an operation computes: when a push publishes, the
      buffer and the write index are those `PushMany` yields at the instant the push loaded
      the read index, however far the consumer has moved since. */
  lemma PushIsPushMany<T>(s: State<T>)
    requires Inv(s) && Enabled(s, PublishPush)
    ensures var began := s.prod.began;
            BehindReader(s.q, began.r) && Sized(|began.buf|) && began.w < |began.buf| == |s.q.buf| &&
            Apply(s, PublishPush).q == PushMany(began, s.prod.input, began.r).0.(r := s.q.r) &&
            Apply(s, PublishPush).pushed ==
              s.pushed + s.prod.input[..PushMany(began, s.prod.input, began.r).1]
  {
  }

  /** Likewise a pop takes what `PopMany` takes at the instant it loaded the write index,
      although the producer may have been writing all the while. */
  lemma PopIsPopMany<T>(s: State<T>)
    requires Inv(s) && Enabled(s, PublishPop)
    ensures var began := s.cons.began;
            BehindWriter(s.q, began.w) && Sized(|began.buf|) && began.r < |began.buf| == |s.q.buf| &&
            PopMany(began, s.cons.limit, began.w).1 == s.cons.out &&
            Apply(s, PublishPop).q.r == PopMany(began, s.cons.limit, began.w).0.r &&
            Apply(s, PublishPop).consumed == s.consumed + s.cons.out
  {
  }
}
