/** Who pays for which message: the dispatch queue as a whole, with its throttle.

    A receiver charges the throttle before it queues a message; the charge is remembered in the
    message, cleared when its dispatch begins and given back when the dispatch ends, or when the
    message is discarded. Messages may be queued again after their dispatch. */
module DispatchAccounts {
  import opened Prelude
  import opened DispatchQueue

  datatype Status = Fresh | Queued | Taken | Dispatching(msize: nat) | Done | Dropped | Discarded

  /** size: the message's own record of its charge; charged, released: what the throttle saw. */
  datatype Msg = Msg(size: nat, status: Status, charged: nat, released: nat)

  /** The dispatch thread: at its loop, or with an item in hand and the lock released. */
  datatype Thread = AtLoop | HasCode | Has(m: nat) | Delivering(m: nat) | Exited

  datatype State = State(sh: Shared, throttle: int, msgs: seq<Msg>, thread: Thread)

  datatype Step =
    | Receive(size: nat)
    | Enqueue(m: nat, cls: nat, stamp: real)
    | QueueCode(code: Code, con: nat)
    | FastBegin(m: nat)
    | FastEnd(m: nat)
    | GetId
    | Discard(id: nat)
    | Shutdown
    | Take(k: nat)
    | CodeDone
    | CheckStop
    | Post
    | Exit

  const START := State(EMPTY, 0, [], AtLoop)

  predicate Enabled(s: State, step: Step) {
    match step
    case Receive(_) => true
    case Enqueue(m, _, _) => m < |s.msgs| && (s.msgs[m].status.Fresh? || s.msgs[m].status.Done?)
    case QueueCode(_, _) => true
    case FastBegin(m) => m < |s.msgs| && s.msgs[m].status.Fresh?
    case FastEnd(m) => m < |s.msgs| && s.msgs[m].status.Dispatching? && s.thread != Delivering(m)
    case GetId => true
    case Discard(id) => 0 < id < s.sh.nextId
    case Shutdown => true
    case Take(k) => s.thread.AtLoop? && k < |s.sh.mqueue|
    case CodeDone => s.thread.HasCode?
    case CheckStop => s.thread.Has?
    case Post => s.thread.Delivering?
    case Exit => s.thread.AtLoop? && s.sh.mqueue == [] && s.sh.stop
  }

  // ---------- what a step does to messages ----------

  function PreDispatch(x: Msg): Msg {
    x.(status := Dispatching(x.size), size := 0)
  }

  function PostDispatch(x: Msg): Msg
    requires x.status.Dispatching?
  {
    x.(status := Done, released := x.released + x.status.msize)
  }

  function Discarding(x: Msg): Msg {
    x.(status := Discarded, released := x.released + x.size)
  }

  /** The removed entries are messages that exist. */
  predicate Known(removed: seq<Entry>, n: nat) {
    forall i :: 0 <= i < |removed| ==> removed[i].item.MsgItem? && removed[i].item.m < n
  }

  function DiscardAll(msgs: seq<Msg>, removed: seq<Entry>): (out: seq<Msg>)
    requires Known(removed, |msgs|)
    ensures |out| == |msgs|
    decreases |removed|
  {
    if removed == [] then msgs
    else DiscardAll(msgs[removed[0].item.m := Discarding(msgs[removed[0].item.m])], removed[1..])
  }

  /** What the throttle is given back, message by message. */
  function SizeOf(msgs: seq<Msg>, removed: seq<Entry>): nat
    requires Known(removed, |msgs|)
    decreases |removed|
  {
    if removed == [] then 0 else msgs[removed[0].item.m].size + SizeOf(msgs, removed[1..])
  }

  /** No assertion of the queue fails, every message at hand exists, and the throttle is never asked
      for more than it holds. */
  predicate Safe(s: State, step: Step)
    requires Enabled(s, step)
  {
    match step
    case Discard(id) =>
      && DiscardSafe(s.sh, id) && Known(OfClass(s.sh.mqueue, id), |s.msgs|)
      && SizeOf(s.msgs, OfClass(s.sh.mqueue, id)) <= s.throttle
    case Take(k) =>
      TakeSafe(s.sh, k) && (s.sh.mqueue[k].item.MsgItem? ==> s.sh.mqueue[k].item.m < |s.msgs|)
    case FastEnd(m) => s.msgs[m].status.msize <= s.throttle
    case CheckStop => s.thread.m < |s.msgs|
    case Post =>
      s.thread.m < |s.msgs| && s.msgs[s.thread.m].status.Dispatching? && s.msgs[s.thread.m].status.msize <= s.throttle
    case _ => true
  }

  function Apply(s: State, step: Step): State
    requires Enabled(s, step) && Safe(s, step)
  {
    match step
    case Receive(size) => s.(throttle := s.throttle + size, msgs := s.msgs + [Msg(size, Fresh, size, 0)])
    case Enqueue(m, cls, stamp) =>
      s.(sh := EnqueueSection(s.sh, m, cls, stamp), msgs := s.msgs[m := s.msgs[m].(status := Queued)])
    case QueueCode(code, con) => s.(sh := CodeSection(s.sh, code, con))
    case FastBegin(m) => s.(msgs := s.msgs[m := PreDispatch(s.msgs[m])])
    case FastEnd(m) =>
      s.(throttle := s.throttle - s.msgs[m].status.msize, msgs := s.msgs[m := PostDispatch(s.msgs[m])])
    case GetId => s.(sh := s.sh.(nextId := s.sh.nextId + 1))
    case Discard(id) =>
      var removed := OfClass(s.sh.mqueue, id);
      s.(sh := DiscardSection(s.sh, id), throttle := s.throttle - SizeOf(s.msgs, removed),
         msgs := DiscardAll(s.msgs, removed))
    case Shutdown => s.(sh := s.sh.(stop := true))
    case Take(k) =>
      (match s.sh.mqueue[k].item
       case CodeItem(_, _) => s.(sh := TakeSection(s.sh, k), thread := HasCode)
       case MsgItem(m) =>
         State(TakeSection(s.sh, k), s.throttle, s.msgs[m := s.msgs[m].(status := Taken)], Has(m)))
    case CodeDone => s.(thread := AtLoop)
    case CheckStop =>
      var m := s.thread.m;
      // m->put() without releasing what the message was charged
      if s.sh.stop then s.(msgs := s.msgs[m := s.msgs[m].(status := Dropped)], thread := AtLoop)
      else s.(msgs := s.msgs[m := PreDispatch(s.msgs[m])], thread := Delivering(m))
    case Post =>
      var m := s.thread.m;
      s.(throttle := s.throttle - s.msgs[m].status.msize, msgs := s.msgs[m := PostDispatch(s.msgs[m])],
         thread := AtLoop)
    case Exit => s.(thread := Exited)
  }

  ghost predicate Moves(s: State, step: Step, s': State) {
    Enabled(s, step) && (Safe(s, step) ==> s' == Apply(s, step))
  }

  // ---------- the accounts ----------

  /** What the throttle still holds for a message. */
  function Owed(x: Msg): int {
    x.charged - x.released
  }

  function TotalOwed(msgs: seq<Msg>): int {
    if msgs == [] then 0 else TotalOwed(msgs[..|msgs| - 1]) + Owed(msgs[|msgs| - 1])
  }

  /** A message carries its outstanding charge itself, hands it to the thread that dispatches it, and
      owes nothing once it is discarded. A message that was dispatched owes nothing. */
  predicate AccountOk(x: Msg) {
    && Owed(x) == (match x.status case Dispatching(msize) => msize case Discarded => 0 case _ => x.size)
    && (x.status.Done? || x.status.Dispatching? ==> x.size == 0)
  }

  ghost predicate StatusOk(s: State) {
    && (forall m: nat :: InQueue(s.sh.mqueue, m) <==> m < |s.msgs| && s.msgs[m].status.Queued?)
    && (forall m: nat :: m < |s.msgs| && s.msgs[m].status.Taken? <==> s.thread == Has(m))
    && (s.thread.Delivering? ==> s.thread.m < |s.msgs| && s.msgs[s.thread.m].status.Dispatching?)
    && (forall m: nat :: m < |s.msgs| && s.msgs[m].status.Dropped? ==> s.sh.stop)
    && (s.thread.Exited? ==> s.sh.stop)
  }

  ghost predicate Accounts(s: State) {
    (forall m: nat :: m < |s.msgs| ==> AccountOk(s.msgs[m])) && s.throttle == TotalOwed(s.msgs)
  }

  ghost predicate Inv(s: State) {
    SharedOk(s.sh) && StatusOk(s) && Accounts(s)
  }

  lemma {:induction false} OwedChanges(msgs: seq<Msg>, m: nat, x: Msg)
    requires m < |msgs|
    ensures TotalOwed(msgs[m := x]) == TotalOwed(msgs) - Owed(msgs[m]) + Owed(x)
    decreases |msgs|
  {
    var last := |msgs| - 1;
    if m == last {
      assert msgs[m := x][..last] == msgs[..last];
    } else {
      assert msgs[m := x][..last] == msgs[..last][m := x];
      OwedChanges(msgs[..last], m, x);
    }
  }

  /** One message cannot owe more than all do. */
  lemma {:induction false} OwedByOne(msgs: seq<Msg>, m: nat)
    requires m < |msgs| && forall i: nat :: i < |msgs| ==> AccountOk(msgs[i])
    ensures 0 <= Owed(msgs[m]) <= TotalOwed(msgs)
    decreases |msgs|
  {
    var last := |msgs| - 1;
    OwedIsPositive(msgs[..last]);
    assert forall i: nat :: i < last ==> AccountOk(msgs[..last][i]);
    if m < last {
      OwedByOne(msgs[..last], m);
    }
  }

  lemma {:induction false} OwedIsPositive(msgs: seq<Msg>)
    requires forall i: nat :: i < |msgs| ==> AccountOk(msgs[i])
    ensures TotalOwed(msgs) >= 0
  {
    if msgs != [] {
      OwedIsPositive(msgs[..|msgs| - 1]);
      assert AccountOk(msgs[|msgs| - 1]);
    }
  }

  /** What discarding gives back is what the discarded messages owed. */
  lemma {:induction false} DiscardBalances(msgs: seq<Msg>, removed: seq<Entry>)
    requires Known(removed, |msgs|) && OnceEach(removed)
    requires forall i: nat :: i < |msgs| ==> AccountOk(msgs[i])
    requires forall i :: 0 <= i < |removed| ==> msgs[removed[i].item.m].status.Queued?
    ensures forall i: nat :: i < |msgs| ==> AccountOk(DiscardAll(msgs, removed)[i])
    ensures forall i: nat :: i < |msgs| ==>
              DiscardAll(msgs, removed)[i] == if InQueue(removed, i) then Discarding(msgs[i]) else msgs[i]
    ensures TotalOwed(DiscardAll(msgs, removed)) == TotalOwed(msgs) - SizeOf(msgs, removed)
    ensures TotalOwed(DiscardAll(msgs, removed)) >= 0
    decreases |removed|
  {
    if removed == [] {
      OwedIsPositive(msgs);
    } else {
      var m, rest := removed[0].item.m, removed[1..];
      var next := msgs[m := Discarding(msgs[m])];
      OnceEachRest(removed);
      OwedChanges(msgs, m, next[m]);
      forall i | 0 <= i < |rest|
        ensures next[rest[i].item.m].status.Queued? && rest[i].item.m != m
      {
        assert rest[i] == removed[i + 1];
      }
      SizesKept(msgs, next, rest);
      DiscardBalances(next, rest);
      forall i: nat | i < |msgs|
        ensures InQueue(removed, i) <==> i == m || InQueue(rest, i)
      {
        InQueueFront(removed, i);
      }
    }
  }

  lemma InQueueFront(q: seq<Entry>, m: nat)
    requires q != []
    ensures InQueue(q, m) <==> q[0].item == MsgItem(m) || InQueue(q[1..], m)
  {
    if InQueue(q[1..], m) {
      var i :| 0 <= i < |q[1..]| && q[1..][i].item == MsgItem(m);
      assert q[i + 1].item == MsgItem(m);
    }
    if InQueue(q, m) && q[0].item != MsgItem(m) {
      var i :| 0 <= i < |q| && q[i].item == MsgItem(m);
      assert q[1..][i - 1].item == MsgItem(m);
    }
  }

  lemma {:induction false} SizesKept(msgs: seq<Msg>, msgs': seq<Msg>, removed: seq<Entry>)
    requires |msgs| == |msgs'| && Known(removed, |msgs|)
    requires forall i :: 0 <= i < |removed| ==> msgs[removed[i].item.m] == msgs'[removed[i].item.m]
    ensures SizeOf(msgs, removed) == SizeOf(msgs', removed)
  {
    if removed != [] {
      assert forall i :: 0 <= i < |removed[1..]| ==> removed[1..][i] == removed[i + 1];
      SizesKept(msgs, msgs', removed[1..]);
    }
  }

  // ---------- every step is safe and keeps the invariant ----------

  /** The entries that discarding id removes are queued messages. */
  lemma RemovedAreQueued(s: State, id: nat)
    requires SharedOk(s.sh) && StatusOk(s) && id > 0
    ensures var removed := OfClass(s.sh.mqueue, id);
            && Known(removed, |s.msgs|) && OnceEach(removed)
            && forall i :: 0 <= i < |removed| ==> s.msgs[removed[i].item.m].status.Queued?
  {
    var removed := OfClass(s.sh.mqueue, id);
    SplitOnceEach(s.sh.mqueue, id);
    forall i | 0 <= i < |removed|
      ensures removed[i].item.MsgItem? && removed[i].item.m < |s.msgs| && s.msgs[removed[i].item.m].status.Queued?
    {
      ClassMembers(s.sh.mqueue, id, removed[i]);
      assert InQueue(s.sh.mqueue, removed[i].item.m);
    }
  }

  lemma EveryStepIsSafe(s: State, step: Step)
    requires Inv(s) && Enabled(s, step)
    ensures Safe(s, step)
  {
    match step
    case Discard(id) =>
      RemovedAreQueued(s, id);
      DiscardOfAnIdIsSafe(s.sh, id);
      DiscardBalances(s.msgs, OfClass(s.sh.mqueue, id));
    case Take(k) =>
      TakeMirrors(s.sh, k);
      assert s.sh.mqueue[k].item.MsgItem? ==> InQueue(s.sh.mqueue, s.sh.mqueue[k].item.m);
    case FastEnd(m) => OwedByOne(s.msgs, m);
    case Post => OwedByOne(s.msgs, s.thread.m);
    case _ =>
  }

  lemma EnqueueKeeps(s: State, m: nat, cls: nat, stamp: real, s': State)
    requires Inv(s) && Enabled(s, Enqueue(m, cls, stamp)) && s' == Apply(s, Enqueue(m, cls, stamp))
    ensures Inv(s')
  {
    hide SharedOk; hide StatusOk; hide EnqueueSection;
    InQueueIffQueued(s, m);
    EnqueueMirrors(s.sh, m, cls, stamp);
    OwedChanges(s.msgs, m, s'.msgs[m]);
    EnqueueStatus(s, m, cls, stamp, s');
  }

  lemma InQueueIffQueued(s: State, m: nat)
    requires StatusOk(s)
    ensures InQueue(s.sh.mqueue, m) <==> m < |s.msgs| && s.msgs[m].status.Queued?
  {
  }

  lemma EnqueueStatus(s: State, m: nat, cls: nat, stamp: real, s': State)
    requires StatusOk(s) && Enabled(s, Enqueue(m, cls, stamp)) && s' == Apply(s, Enqueue(m, cls, stamp))
    requires forall x :: InQueue(s'.sh.mqueue, x) <==> x == m || InQueue(s.sh.mqueue, x)
    ensures StatusOk(s')
  {
    hide InQueue;
  }

  lemma DiscardKeeps(s: State, id: nat, s': State)
    requires Inv(s) && Enabled(s, Discard(id)) && Safe(s, Discard(id)) && s' == Apply(s, Discard(id))
    ensures Inv(s')
  {
    var removed := OfClass(s.sh.mqueue, id);
    RemovedAreQueued(s, id);
    DiscardMirrors(s.sh, id);
    DiscardBalances(s.msgs, removed);
    DiscardStatus(s, id, s');
  }

  lemma DiscardStatus(s: State, id: nat, s': State)
    requires SharedOk(s.sh) && StatusOk(s) && |s'.msgs| == |s.msgs|
    requires s'.sh.mqueue == NotOfClass(s.sh.mqueue, id) && s'.sh.stop == s.sh.stop && s'.thread == s.thread
    requires forall i: nat :: i < |s.msgs| ==>
               s'.msgs[i] == if InQueue(OfClass(s.sh.mqueue, id), i) then Discarding(s.msgs[i]) else s.msgs[i]
    ensures StatusOk(s')
  {
    forall m: nat
      ensures InQueue(s'.sh.mqueue, m) <==> m < |s'.msgs| && s'.msgs[m].status.Queued?
      ensures m < |s.msgs| && InQueue(OfClass(s.sh.mqueue, id), m) ==> s.msgs[m].status.Queued?
    {
      SplitMembers(s.sh.mqueue, id, m);
    }
  }

  lemma TakeKeepsAccounts(msgs: seq<Msg>, m: nat)
    requires m < |msgs| && msgs[m].status.Queued? && forall i: nat :: i < |msgs| ==> AccountOk(msgs[i])
    ensures var out := msgs[m := msgs[m].(status := Taken)];
            TotalOwed(out) == TotalOwed(msgs) && forall i: nat :: i < |out| ==> AccountOk(out[i])
  {
    OwedChanges(msgs, m, msgs[m].(status := Taken));
  }

  lemma TakeKeeps(s: State, k: nat, s': State)
    requires Inv(s) && Enabled(s, Take(k)) && Safe(s, Take(k)) && s' == Apply(s, Take(k))
    ensures Inv(s')
  {
    hide SharedOk; hide InQueue; hide TotalOwed; hide AccountOk; hide TakeSection;
    TakeMirrors(s.sh, k);
    TakeKeepsStop(s.sh, k);
    match s.sh.mqueue[k].item
    case CodeItem(_, _) =>
    case MsgItem(m) =>
      IsInQueue(s.sh.mqueue, k);
      TakeKeepsAccounts(s.msgs, m);
  }

  lemma TakeKeepsStop(sh: Shared, k: nat)
    requires k < |sh.mqueue| && TakeSafe(sh, k)
    ensures TakeSection(sh, k).stop == sh.stop
  {
  }

  /** Steps on one message that leave the queue alone. */
  lemma MessageKeeps(s: State, step: Step, m: nat, s': State)
    requires Inv(s) && Enabled(s, step) && Safe(s, step) && s' == Apply(s, step)
    requires (step.FastBegin? && step.m == m) || (step.FastEnd? && step.m == m) ||
             (step.CheckStop? && s.thread.m == m) || (step.Post? && s.thread.m == m)
    ensures Inv(s')
  {
    hide SharedOk; hide TotalOwed; hide InQueue;
    OwedChanges(s.msgs, m, s'.msgs[m]);
    assert AccountOk(s.msgs[m]) && s'.sh == s.sh;
  }

  lemma ReceiveKeeps(s: State, size: nat, s': State)
    requires Inv(s) && s' == Apply(s, Receive(size))
    ensures Inv(s')
  {
    assert s'.msgs[..|s'.msgs| - 1] == s.msgs;
    assert forall m: nat :: m < |s.msgs| ==> s'.msgs[m] == s.msgs[m];
  }

  lemma StepKeepsInv(s: State, step: Step, s': State)
    requires Inv(s) && Moves(s, step, s')
    ensures Inv(s')
  {
    EveryStepIsSafe(s, step);
    match step
    case Receive(size) => ReceiveKeeps(s, size, s');
    case Enqueue(m, cls, stamp) => EnqueueKeeps(s, m, cls, stamp, s');
    case QueueCode(code, con) => CodeMirrors(s.sh, code, con);
    case FastBegin(m) => MessageKeeps(s, step, m, s');
    case FastEnd(m) => MessageKeeps(s, step, m, s');
    case Discard(id) => DiscardKeeps(s, id, s');
    case Take(k) => TakeKeeps(s, k, s');
    case CheckStop => MessageKeeps(s, step, s.thread.m, s');
    case Post => MessageKeeps(s, step, s.thread.m, s');
    case _ => assert s'.sh.mqueue == s.sh.mqueue && s'.msgs == s.msgs;
  }

  // ---------- what holds over every run ----------

  ghost predicate Run(states: seq<State>, steps: seq<Step>) {
    |states| == |steps| + 1 && forall i :: 0 <= i < |steps| ==> Moves(states[i], steps[i], states[i + 1])
  }

  lemma StartIsGood()
    ensures Inv(START)
  {
  }

  lemma MovesIsEnabled(s: State, step: Step, s': State)
    requires Moves(s, step, s')
    ensures Enabled(s, step)
  {
  }

  /** In no run does an assertion fail or the throttle run out; index, queue and accounts agree
      throughout. */
  lemma {:induction false} EveryRunIsSafe(states: seq<State>, steps: seq<Step>)
    requires Run(states, steps) && states[0] == START
    ensures forall i :: 0 <= i < |states| ==> Inv(states[i])
    ensures forall i :: 0 <= i < |steps| ==> Enabled(states[i], steps[i]) && Safe(states[i], steps[i])
    decreases |steps|
  {
    hide Inv; hide Moves; hide Enabled; hide Safe; hide Apply;
    if steps == [] {
      StartIsGood();
    } else {
      var last := |steps| - 1;
      EveryRunIsSafe(states[..|steps|], steps[..last]);
      assert forall i :: 0 <= i < |steps| ==> states[..|steps|][i] == states[i];
      assert forall i :: 0 <= i < last ==> steps[..last][i] == steps[i];
      assert Moves(states[last], steps[last], states[last + 1]);
      StepKeepsInv(states[last], steps[last], states[last + 1]);
      MovesIsEnabled(states[last], steps[last], states[last + 1]);
      EveryStepIsSafe(states[last], steps[last]);
    }
  }

  /** When the dispatch thread leaves its loop, the index of arrivals is empty too. */
  lemma ExitLeavesNothing(s: State)
    requires Inv(s) && Enabled(s, Exit)
    ensures s.sh.marrivalMap == map[] && s.sh.marrival == {}
  {
    assert forall m: nat :: !InQueue(s.sh.mqueue, m);
    assert forall m: nat :: m !in s.sh.marrivalMap;
  }

  /** No message is on its way any more. */
  ghost predicate Settled(s: State) {
    forall m: nat :: m < |s.msgs| ==> s.msgs[m].status.Done? || s.msgs[m].status.Discarded? || s.msgs[m].status.Dropped?
  }

  lemma {:induction false} NothingOwed(msgs: seq<Msg>)
    requires forall m: nat :: m < |msgs| ==> AccountOk(msgs[m])
    ensures TotalOwed(msgs) == 0 <==> forall m: nat :: m < |msgs| ==> Owed(msgs[m]) == 0
  {
    if msgs != [] {
      var last := |msgs| - 1;
      OwedIsPositive(msgs[..last]);
      NothingOwed(msgs[..last]);
      assert AccountOk(msgs[last]);
      assert forall m: nat :: m < last ==> msgs[..last][m] == msgs[m];
    }
  }

  /** Once every message is settled, the throttle has been given back everything, message by
      message, exactly when no message with a charge was dropped after `stop`. */
  lemma ThrottleIsEmptyUnlessDropped(s: State)
    requires Inv(s) && Settled(s)
    ensures s.throttle == 0 <==> forall m: nat :: m < |s.msgs| && s.msgs[m].status.Dropped? ==> s.msgs[m].size == 0
    ensures !s.sh.stop ==> s.throttle == 0 && forall m: nat :: m < |s.msgs| ==> s.msgs[m].released == s.msgs[m].charged
  {
    NothingOwed(s.msgs);
    assert forall m: nat :: m < |s.msgs| ==> AccountOk(s.msgs[m]);
  }

  lemma OneStepMore(states: seq<State>, steps: seq<Step>, step: Step) returns (more: seq<State>)
    requires Run(states, steps) && Enabled(states[|steps|], step) && Safe(states[|steps|], step)
    ensures more == states + [Apply(states[|steps|], step)] && Run(more, steps + [step])
  {
    hide Enabled; hide Safe; hide Apply;
    more := states + [Apply(states[|steps|], step)];
    forall i | 0 <= i < |steps| + 1
      ensures Moves(more[i], (steps + [step])[i], more[i + 1])
    {
      assert i < |steps| ==> Moves(states[i], steps[i], states[i + 1]);
    }
  }

  lemma JustStarted() returns (states: seq<State>)
    ensures states == [START] && Run(states, [])
  {
    states := [START];
  }

  lemma SettledAlone(s: State)
    requires |s.msgs| == 1 && s.msgs[0].status.Dropped?
    ensures Settled(s)
  {
  }

  /** A message of the given size queued, and the stop. */
  lemma QueuedThenStopped(size: nat, cls: nat, stamp: real) returns (states: seq<State>, steps: seq<Step>)
    ensures Run(states, steps) && |states| == 4 && states[0] == START
    ensures steps == [Receive(size), Enqueue(0, cls, stamp), Shutdown]
    ensures var a := Arrival(stamp, 0);
            states[3] == State(Shared([Entry(cls, MsgItem(0))], {a}, map[0 := a], 1, true), size,
                               [Msg(size, Queued, size, 0)], AtLoop)
  {
    hide Run;
    states := JustStarted();
    steps := [];
    states := OneStepMore(states, steps, Receive(size));
    steps := steps + [Receive(size)];
    assert states[1] == State(EMPTY, size, [Msg(size, Fresh, size, 0)], AtLoop);
    states := OneStepMore(states, steps, Enqueue(0, cls, stamp));
    steps := steps + [Enqueue(0, cls, stamp)];
    states := OneStepMore(states, steps, Shutdown);
    steps := steps + [Shutdown];
  }

  lemma TakenAfterStop(s: State) returns (s1: State, s2: State)
    requires |s.sh.mqueue| == 1 && s.sh.mqueue[0].item == MsgItem(0) && 0 in s.sh.marrivalMap
    requires |s.msgs| == 1 && s.sh.stop && s.thread.AtLoop?
    ensures Enabled(s, Take(0)) && Safe(s, Take(0)) && s1 == Apply(s, Take(0))
    ensures Enabled(s1, CheckStop) && Safe(s1, CheckStop) && s2 == Apply(s1, CheckStop)
    ensures s2.thread.AtLoop? && s2.sh.mqueue == [] && s2.sh.stop && s2.throttle == s.throttle
    ensures |s2.msgs| == 1 && s2.msgs[0].status.Dropped?
  {
    s1 := Apply(s, Take(0));
    s2 := Apply(s1, CheckStop);
  }

  /** A message is received and queued, and the dispatch thread takes it after the stop: all is settled,
      and the throttle keeps every byte of it. */
  lemma BytesOfTheDropped(size: nat, cls: nat, stamp: real) returns (states: seq<State>, steps: seq<Step>)
    ensures Run(states, steps) && |states| == 7 && states[0] == START
    ensures steps == [Receive(size), Enqueue(0, cls, stamp), Shutdown, Take(0), CheckStop, Exit]
    ensures Settled(states[6]) && states[6].thread.Exited? && states[6].throttle == size
  {
    hide Run; hide Settled; hide TakeSection;
    states, steps := QueuedThenStopped(size, cls, stamp);
    var s1, s2 := TakenAfterStop(states[3]);
    states := OneStepMore(states, steps, Take(0));
    steps := steps + [Take(0)];
    states := OneStepMore(states, steps, CheckStop);
    steps := steps + [CheckStop];
    states := OneStepMore(states, steps, Exit);
    steps := steps + [Exit];
    SettledAlone(states[6]);
  }

  // ---------- the object ----------

  /** The fields of the dispatch queue, with the messages it knows, and the code between its lock and
      its unlock. */
  class Dispatcher {
    var mqueue: seq<Entry>
    var marrival: set<Arrival>
    var marrivalMap: map<nat, Arrival>
    var nextId: nat
    var stop: bool
    var throttle: int
    var msgs: seq<Msg>

    ghost function View(): Shared
      reads this
    {
      Shared(mqueue, marrival, marrivalMap, nextId, stop)
    }

    constructor ()
      ensures View() == START.sh && throttle == START.throttle && msgs == START.msgs
    {
      mqueue, marrival, marrivalMap, nextId, stop := [], {}, map[], 1, false;
      throttle, msgs := 0, [];
    }

    /** map::insert does nothing if the key is there; set::insert returns the place of the element
        either way. */
    method AddArrivalOf(m: nat, stamp: real)
      modifies this`marrival, this`marrivalMap
      ensures View() == AddArrival(old(View()), m, stamp)
      ensures marrival == old(marrival) + {Arrival(stamp, m)}
      ensures marrivalMap ==
              if m in old(marrivalMap) then old(marrivalMap) else old(marrivalMap)[m := Arrival(stamp, m)]
    {
      var where := Arrival(stamp, m);
      marrival := marrival + {where};
      if m !in marrivalMap {
        marrivalMap := marrivalMap[m := where];
      }
    }

    method RemoveArrivalOf(m: nat)
      requires m in marrivalMap
      modifies this`marrival, this`marrivalMap
      ensures View() == RemoveArrival(old(View()), m)
      ensures marrival == old(marrival) - {old(marrivalMap)[m]} && marrivalMap == old(marrivalMap) - {m}
    {
      var where := marrivalMap[m];
      marrival := marrival - {where};
      marrivalMap := marrivalMap - {m};
    }

    method EnqueueMsg(m: nat, cls: nat, stamp: real)
      modifies this`mqueue, this`marrival, this`marrivalMap
      ensures View() == EnqueueSection(old(View()), m, cls, stamp)
      ensures mqueue == old(mqueue) + [Entry(cls, MsgItem(m))]
      ensures marrival == old(marrival) + {Arrival(stamp, m)} && marrivalMap.Keys == old(marrivalMap).Keys + {m}
    {
      AddArrivalOf(m, stamp);
      mqueue := mqueue + [Entry(cls, MsgItem(m))];
    }

    /** queue_connect and its four siblings. */
    method EnqueueCode(code: Code, con: nat)
      modifies this`mqueue
      ensures View() == CodeSection(old(View()), code, con)
      ensures mqueue == if stop then old(mqueue) else old(mqueue) + [Entry(0, CodeItem(code, con))]
    {
      if stop {
        return;
      }
      mqueue := mqueue + [Entry(0, CodeItem(code, con))];
    }

    /** The part of entry under the lock, when the queue hands out the entry at k. */
    method Dequeue(k: nat) returns (item: Item)
      requires k < |mqueue| && TakeSafe(View(), k)
      modifies this`mqueue, this`marrival, this`marrivalMap
      ensures item == old(mqueue[k].item) && View() == TakeSection(old(View()), k)
      ensures mqueue == old(mqueue)[..k] + old(mqueue)[k + 1..]
      ensures if item.CodeItem? then marrival == old(marrival) && marrivalMap == old(marrivalMap)
              else marrival == old(marrival) - {old(marrivalMap)[item.m]} && marrivalMap == old(marrivalMap) - {item.m}
    {
      item := mqueue[k].item;
      mqueue := RemoveAt(mqueue, k);
      if item.MsgItem? {
        RemoveArrivalOf(item.m);
      }
    }

    method ThrottleRelease(msize: nat)
      requires msize <= throttle
      modifies this`throttle
      ensures throttle == old(throttle) - msize
    {
      if msize != 0 {
        throttle := throttle - msize;
      }
    }

    method DiscardQueue(id: nat)
      requires DiscardSafe(View(), id) && Known(OfClass(mqueue, id), |msgs|)
      requires SizeOf(msgs, OfClass(mqueue, id)) <= throttle && OnceEach(OfClass(mqueue, id))
      modifies this
      ensures View() == DiscardSection(old(View()), id)
      ensures throttle == old(throttle) - SizeOf(old(msgs), OfClass(old(mqueue), id))
      ensures msgs == DiscardAll(old(msgs), OfClass(old(mqueue), id))
    {
      ghost var final := DiscardSection(View(), id);
      ghost var left := throttle - SizeOf(msgs, OfClass(mqueue, id));
      ghost var settled := DiscardAll(msgs, OfClass(mqueue, id));
      var removed := OfClass(mqueue, id);
      mqueue := NotOfClass(mqueue, id);
      while removed != []
        invariant RemovalSafe(View(), removed) && RemoveArrivals(View(), removed) == final
        invariant Known(removed, |msgs|) && OnceEach(removed) && left >= 0
        invariant throttle - SizeOf(msgs, removed) == left && DiscardAll(msgs, removed) == settled
        decreases |removed|
      {
        OnceEachRest(removed);
        var m, rest := removed[0].item.m, removed[1..];
        RemoveArrivalOf(m);
        ghost var was := msgs;
        ThrottleRelease(msgs[m].size);
        msgs := msgs[m := Discarding(msgs[m])];
        forall i | 0 <= i < |rest|
          ensures rest[i].item.m != m
        {
          assert rest[i].item != MsgItem(m);
        }
        SizesKept(was, msgs, rest);
        removed := rest;
      }
    }
  }
}
