/** The worker pool of the messenger's queue strategy.

    Threads take messages off a queue; a thread that finds none puts itself on a list of
    waiters and sleeps on a condition of its own, so whoever queues a message picks the
    thread to wake. What runs under the lock is one step (a wait releases the lock
    and, once signalled, takes it again); the flag `stop` is read once more without the lock.
    Any number of callers and workers interleave. */
module WorkerPool {
  import opened Prelude

  // ---------- the critical sections ----------

  /** What the lock protects. Messages are numbered in the order they are queued. */
  datatype Shared = Shared(stop: bool, mqueue: seq<nat>, waiters: seq<nat>)

  /** What a worker does after its critical section: go on with a message or none, or sleep. */
  datatype Outcome = Go(m: Option<nat>) | Sleep

  /** Queue a message; the thread to signal is the first waiter. */
  function DispatchSection(sh: Shared, m: nat): (Shared, Option<nat>) {
    if sh.waiters == [] then (sh.(mqueue := sh.mqueue + [m]), None)
    else (sh.(mqueue := sh.mqueue + [m], waiters := sh.waiters[1..]), Some(sh.waiters[0]))
  }

  function EntrySection(sh: Shared, w: nat): (Shared, Outcome) {
    if sh.mqueue != [] then (sh.(mqueue := sh.mqueue[1..]), Go(Some(sh.mqueue[0])))
    else if sh.stop then (sh, Go(None))
    else (sh.(waiters := [w] + sh.waiters), Sleep)
  }

  /** Stop; the threads to signal are all the waiters. */
  function ShutdownSection(sh: Shared): (Shared, seq<nat>) {
    (sh.(stop := true, waiters := []), sh.waiters)
  }

  // ---------- the machine ----------

  datatype Worker = AtLock | Sleeping(signalled: bool) | Holding(m: Option<nat>) | Exited

  /** How often a message was handed to the messenger, and how often it was dropped. */
  datatype Msg = Msg(delivered: nat, released: nat)

  datatype State = State(sh: Shared, workers: seq<Worker>, msgs: seq<Msg>)

  datatype Step = Dispatch | Shutdown | Section(w: nat) | CheckStop(w: nat)

  function Start(n: nat): State {
    State(Shared(false, [], []), seq(n, _ => AtLock), [])
  }

  /** Signalling a thread that does not sleep does nothing. */
  function Signal(ws: seq<Worker>, w: nat): (ws': seq<Worker>)
    ensures |ws'| == |ws|
  {
    if w < |ws| && ws[w].Sleeping? then ws[w := Sleeping(true)] else ws
  }

  function SignalAll(ws: seq<Worker>, which: seq<nat>): (ws': seq<Worker>)
    ensures |ws'| == |ws|
    decreases |which|
  {
    if which == [] then ws else SignalAll(Signal(ws, which[0]), which[1..])
  }

  predicate Enabled(s: State, step: Step) {
    match step
    case Dispatch => true
    case Shutdown => true
    case Section(w) => w < |s.workers| && (s.workers[w].AtLock? || s.workers[w] == Sleeping(true))
    case CheckStop(w) => w < |s.workers| && s.workers[w].Holding?
  }

  /** A thread may be put on the intrusive list of waiters only if it is not on it, and there must
      be a message to deliver or drop. */
  predicate Safe(s: State, step: Step)
    requires Enabled(s, step)
  {
    match step
    case Dispatch => true
    case Shutdown => true
    case Section(w) => EntrySection(s.sh, w).1.Sleep? ==> w !in s.sh.waiters
    case CheckStop(w) =>
      var held := s.workers[w].m;
      if held.None? then s.sh.stop else held.value < |s.msgs|
  }

  function Apply(s: State, step: Step): State
    requires Enabled(s, step) && Safe(s, step)
  {
    match step
    case Dispatch =>
      var (sh, woken) := DispatchSection(s.sh, |s.msgs|);
      State(sh, if woken.Some? then Signal(s.workers, woken.value) else s.workers, s.msgs + [Msg(0, 0)])
    case Shutdown =>
      var (sh, woken) := ShutdownSection(s.sh);
      State(sh, SignalAll(s.workers, woken), s.msgs)
    case Section(w) =>
      var (sh, outcome) := EntrySection(s.sh, w);
      State(sh, s.workers[w := if outcome.Go? then Holding(outcome.m) else Sleeping(false)], s.msgs)
    case CheckStop(w) =>
      var held := s.workers[w].m;
      if held.None? then s.(workers := s.workers[w := Exited])
      else
        var x := s.msgs[held.value];
        s.(workers := s.workers[w := AtLock],
           msgs := s.msgs[held.value := if s.sh.stop then x.(released := x.released + 1)
                                        else x.(delivered := x.delivered + 1)])
  }

  /** Nothing is known of the state after an unsafe step. */
  ghost predicate Moves(s: State, step: Step, s': State) {
    Enabled(s, step) && (Safe(s, step) ==> s' == Apply(s, step))
  }

  ghost predicate Run(states: seq<State>, steps: seq<Step>) {
    |states| == |steps| + 1 && forall i :: 0 <= i < |steps| ==> Moves(states[i], steps[i], states[i + 1])
  }

  // ---------- the invariant ----------

  function Taken(s: State): int {
    |s.msgs| - |s.sh.mqueue|
  }

  function Woken(s: State): set<nat> {
    set w | 0 <= w < |s.workers| && s.workers[w] == Sleeping(true)
  }

  ghost predicate Holds(s: State, w: nat, m: nat) {
    w < |s.workers| && s.workers[w] == Holding(Some(m))
  }

  ghost predicate Held(s: State, m: nat) {
    exists w :: Holds(s, w, m)
  }

  /** The list has exactly the sleepers nobody has signalled, each once. */
  ghost predicate WaitersOk(s: State) {
    && NoDuplicates(s.sh.waiters)
    && (forall w :: w in s.sh.waiters ==> w < |s.workers| && s.workers[w] == Sleeping(false))
    && (forall w :: 0 <= w < |s.workers| && s.workers[w] == Sleeping(false) ==> w in s.sh.waiters)
  }

  /** The queue holds the messages not taken yet, in the order they came. */
  ghost predicate QueueOk(s: State) {
    |s.sh.mqueue| <= |s.msgs| && forall i :: 0 <= i < |s.sh.mqueue| ==> s.sh.mqueue[i] == Taken(s) + i
  }

  /** A taken message has one holder or one end. */
  ghost predicate FateOk(s: State) {
    && (forall w: nat, m: nat :: Holds(s, w, m) ==> m < Taken(s))
    && (forall v: nat, w: nat, m: nat :: Holds(s, v, m) && Holds(s, w, m) ==> v == w)
    && (forall m :: 0 <= m < |s.msgs| ==>
          s.msgs[m].delivered + s.msgs[m].released == if m < Taken(s) && !Held(s, m) then 1 else 0)
  }

  ghost predicate StopOk(s: State) {
    && (s.sh.stop ==> s.sh.waiters == [])
    && (forall w :: 0 <= w < |s.workers| && (s.workers[w] == Holding(None) || s.workers[w].Exited?) ==> s.sh.stop)
  }

  /** While anybody oversleeps, every queued message has a thread on its way to it. */
  ghost predicate WakeOk(s: State) {
    s.sh.waiters != [] ==> |s.sh.mqueue| <= |Woken(s)|
  }

  ghost predicate Inv(s: State) {
    WaitersOk(s) && QueueOk(s) && FateOk(s) && StopOk(s) && WakeOk(s)
  }

  lemma StartOk(n: nat)
    ensures Inv(Start(n))
  {
  }

  lemma EveryStepIsSafe(s: State, step: Step)
    requires Inv(s) && Enabled(s, step)
    ensures Safe(s, step)
  {
    if step.CheckStop? {
      var held := s.workers[step.w].m;
      assert held.Some? ==> Holds(s, step.w, held.value);
    }
  }

  // ---------- every step keeps it ----------

  lemma {:induction false} SignalAllAt(ws: seq<Worker>, which: seq<nat>, w: nat)
    requires w < |ws|
    ensures SignalAll(ws, which)[w] == if w in which && ws[w].Sleeping? then Sleeping(true) else ws[w]
    decreases |which|
  {
    if which != [] {
      SignalAllAt(Signal(ws, which[0]), which[1..], w);
      assert which == [which[0]] + which[1..];
    }
  }

  /** Waking threads changes no message's fate. */
  lemma FateKept(s: State, s': State)
    requires FateOk(s) && |s.workers| == |s'.workers| && s'.msgs == s.msgs && Taken(s') == Taken(s)
    requires forall w, m :: Holds(s', w, m) <==> Holds(s, w, m)
    ensures FateOk(s')
  {
    forall m | 0 <= m < |s.msgs|
      ensures Held(s', m) == Held(s, m)
    {
    }
  }

  lemma FirstWaiterLeaves(s: State, s': State)
    requires WaitersOk(s) && s.sh.waiters != [] && s'.sh.waiters == s.sh.waiters[1..]
    requires s'.workers == Signal(s.workers, s.sh.waiters[0])
    ensures WaitersOk(s') && Woken(s') == Woken(s) + {s.sh.waiters[0]} && s.sh.waiters[0] !in Woken(s)
  {
    var first := s.sh.waiters[0];
    assert s.sh.waiters == [first] + s'.sh.waiters;
    assert forall w :: w in s.sh.waiters <==> w == first || w in s'.sh.waiters;
    assert first !in s'.sh.waiters;
  }

  lemma DispatchKeeps(s: State, s': State)
    requires Inv(s) && s' == Apply(s, Dispatch)
    ensures Inv(s')
  {
    if s.sh.waiters != [] {
      FirstWaiterLeaves(s, s');
    }
    assert Taken(s') == Taken(s);
    forall m | 0 <= m < |s.msgs|
      ensures Held(s', m) == Held(s, m) && s'.msgs[m] == s.msgs[m]
    {
      assert forall w :: Holds(s', w, m) <==> Holds(s, w, m);
    }
    assert forall w, m :: Holds(s', w, m) <==> Holds(s, w, m);
  }

  lemma ShutdownKeeps(s: State, s': State)
    requires Inv(s) && s' == Apply(s, Shutdown)
    ensures Inv(s')
  {
    forall w | 0 <= w < |s.workers|
      ensures s'.workers[w] == if w in s.sh.waiters then Sleeping(true) else s.workers[w]
    {
      SignalAllAt(s.workers, s.sh.waiters, w);
    }
    assert forall w, m :: Holds(s', w, m) <==> Holds(s, w, m);
    FateKept(s, s');
  }

  lemma SleepKeeps(s: State, w: nat, s': State)
    requires Inv(s) && Enabled(s, Section(w)) && Safe(s, Section(w)) && s' == Apply(s, Section(w))
    requires EntrySection(s.sh, w).1.Sleep?
    ensures Inv(s')
  {
    assert forall v, m :: Holds(s', v, m) <==> Holds(s, v, m);
    FateKept(s, s');
  }

  lemma LeaveKeeps(s: State, w: nat, s': State)
    requires Inv(s) && Enabled(s, Section(w)) && Safe(s, Section(w)) && s' == Apply(s, Section(w))
    requires EntrySection(s.sh, w).1 == Go(None)
    ensures Inv(s')
  {
    assert forall v, m :: Holds(s', v, m) <==> Holds(s, v, m);
    FateKept(s, s');
  }

  lemma TakeKeeps(s: State, w: nat, s': State)
    requires Inv(s) && Enabled(s, Section(w)) && Safe(s, Section(w)) && s' == Apply(s, Section(w))
    requires s.sh.mqueue != []
    ensures Inv(s')
  {
    var first := s.sh.mqueue[0];
    assert first == Taken(s) && Taken(s') == Taken(s) + 1;
    assert Woken(s') == Woken(s) - {w};
    assert forall v, m :: Holds(s', v, m) <==> if v == w then m == first else Holds(s, v, m);
    forall m | 0 <= m < |s.msgs| && m != first
      ensures Held(s', m) == Held(s, m)
    {
      assert Held(s, m) ==> exists v :: v != w && Holds(s, v, m);
    }
    assert Holds(s', w, first);
  }

  lemma CheckKeeps(s: State, w: nat, s': State)
    requires Inv(s) && Enabled(s, CheckStop(w)) && Safe(s, CheckStop(w)) && s' == Apply(s, CheckStop(w))
    ensures Inv(s')
  {
    var held := s.workers[w].m;
    assert Woken(s') == Woken(s);
    if held.None? {
      assert forall v, m :: Holds(s', v, m) <==> Holds(s, v, m);
      FateKept(s, s');
    } else {
      assert Holds(s, w, held.value);
      assert forall v, m :: Holds(s', v, m) <==> v != w && Holds(s, v, m);
      forall m | 0 <= m < |s.msgs|
        ensures Held(s', m) == (m != held.value && Held(s, m))
      {
        assert m != held.value && Held(s, m) ==> exists v :: v != w && Holds(s, v, m);
      }
    }
  }

  lemma StepKeepsInv(s: State, step: Step, s': State)
    requires Inv(s) && Moves(s, step, s')
    ensures Inv(s')
  {
    EveryStepIsSafe(s, step);
    match step
    case Dispatch => DispatchKeeps(s, s');
    case Shutdown => ShutdownKeeps(s, s');
    case CheckStop(w) => CheckKeeps(s, w, s');
    case Section(w) =>
      if s.sh.mqueue != [] {
        TakeKeeps(s, w, s');
      } else if s.sh.stop {
        LeaveKeeps(s, w, s');
      } else {
        SleepKeeps(s, w, s');
      }
  }

  // ---------- what holds over every run ----------

  /** No step of any run touches a list node it must not, or a null message; nobody oversleeps;
      each message meets at most one end. */
  lemma {:induction false} EveryRunIsSafe(states: seq<State>, steps: seq<Step>, n: nat)
    requires Run(states, steps) && states[0] == Start(n)
    ensures forall i :: 0 <= i < |states| ==> Inv(states[i])
    ensures forall i :: 0 <= i < |steps| ==> Enabled(states[i], steps[i]) && Safe(states[i], steps[i])
  {
    StartOk(n);
    RunKeepsInv(states, steps);
    forall i | 0 <= i < |steps|
      ensures Enabled(states[i], steps[i]) && Safe(states[i], steps[i])
    {
      assert Moves(states[i], steps[i], states[i + 1]);
      EveryStepIsSafe(states[i], steps[i]);
    }
  }

  lemma {:induction false} RunKeepsInv(states: seq<State>, steps: seq<Step>)
    requires Run(states, steps) && Inv(states[0])
    ensures forall i :: 0 <= i < |states| ==> Inv(states[i])
    decreases |steps|
  {
    if steps != [] {
      var last := |steps| - 1;
      RunKeepsInv(states[..|steps|], steps[..last]);
      assert states[..|steps|][last] == states[last];
      StepKeepsInv(states[last], steps[last], states[last + 1]);
      assert forall i :: 0 <= i < |steps| ==> states[..|steps|][i] == states[i];
    }
  }

  predicate WorkerCanStep(s: State, w: nat) {
    Enabled(s, Section(w)) || Enabled(s, CheckStop(w))
  }

  /** Unless every worker has exited, a queued message finds one that is awake. */
  lemma QueuedMessageFindsAWorker(s: State, w: nat)
    requires Inv(s) && s.sh.mqueue != [] && w < |s.workers| && !s.workers[w].Exited?
    ensures exists v :: WorkerCanStep(s, v)
  {
    if s.sh.waiters == [] {
      assert s.workers[w] != Sleeping(false);
      assert WorkerCanStep(s, w);
    } else {
      assert Woken(s) != {};
      var v :| v in Woken(s);
      assert WorkerCanStep(s, v);
    }
  }

  /** If a waiting thread woke without having been signalled, it would go back to the list it is
      already on, unless a message happens to be queued. */
  lemma SpuriousWakeup(s: State, w: nat)
    requires Inv(s) && w in s.sh.waiters
    ensures Safe(s.(workers := s.workers[w := Sleeping(true)]), Section(w)) <==> s.sh.mqueue != []
  {
  }

  // ---------- shutting down ----------

  function Weight(x: Worker): nat {
    match x
    case AtLock => 2
    case Sleeping(_) => 2
    case Holding(m) => if m.Some? then 3 else 1
    case Exited => 0
  }

  function TotalWeight(ws: seq<Worker>): nat {
    if ws == [] then 0 else TotalWeight(ws[..|ws| - 1]) + Weight(ws[|ws| - 1])
  }

  function Work(s: State): nat {
    3 * |s.sh.mqueue| + TotalWeight(s.workers)
  }

  lemma {:induction false} WeightChanges(ws: seq<Worker>, w: nat, x: Worker)
    requires w < |ws|
    ensures TotalWeight(ws[w := x]) == TotalWeight(ws) - Weight(ws[w]) + Weight(x)
    decreases |ws|
  {
    var last := |ws| - 1;
    if w == last {
      assert ws[w := x][..last] == ws[..last];
    } else {
      assert ws[w := x][..last] == ws[..last][w := x];
      WeightChanges(ws[..last], w, x);
    }
  }

  /** Once stopped, every step of a worker uses up work. */
  lemma WorkFalls(s: State, step: Step, s': State)
    requires Inv(s) && s.sh.stop && (step.Section? || step.CheckStop?) && Moves(s, step, s')
    ensures Work(s') < Work(s) && s'.sh.stop
  {
    EveryStepIsSafe(s, step);
    WeightChanges(s.workers, step.w, s'.workers[step.w]);
  }

  /** Workers that have not yet decided to exit. */
  ghost predicate Looking(s: State, w: nat) {
    w < |s.workers| && !s.workers[w].Exited? && s.workers[w] != Holding(None)
  }

  /** Nothing is queued, or somebody will look again. */
  ghost predicate Attended(s: State) {
    s.sh.mqueue == [] || exists w :: Looking(s, w)
  }

  lemma StaysAttended(s: State, step: Step, s': State)
    requires Inv(s) && (step.Section? || step.CheckStop?) && Moves(s, step, s')
    ensures Attended(s) ==> Attended(s')
    ensures !Attended(s) ==> !Attended(s')
  {
    EveryStepIsSafe(s, step);
    if Attended(s) && s.sh.mqueue != [] {
      var v :| Looking(s, v);
      assert Looking(s', v);
    }
    if !Attended(s) {
      assert !Looking(s, step.w);
      assert step.CheckStop? && s.workers[step.w] == Holding(None) && s'.sh == s.sh;
      forall w: nat
        ensures !Looking(s', w)
      {
        assert !Looking(s, w);
      }
    }
  }

  ghost predicate WorkersRun(states: seq<State>, steps: seq<Step>) {
    Run(states, steps) && forall i :: 0 <= i < |steps| ==> steps[i].Section? || steps[i].CheckStop?
  }

  ghost predicate AllExited(s: State) {
    forall w :: 0 <= w < |s.workers| ==> s.workers[w].Exited?
  }

  /** Where every message ended: delivered once, or dropped once. */
  ghost predicate AllEnded(s: State) {
    forall m :: 0 <= m < |s.msgs| ==> s.msgs[m].delivered + s.msgs[m].released == 1
  }

  /** After `stop`, the workers come to rest within Work steps ... */
  lemma {:induction false} WorkersComeToRest(states: seq<State>, steps: seq<Step>)
    requires WorkersRun(states, steps) && Inv(states[0]) && states[0].sh.stop
    ensures |steps| + Work(states[|steps|]) <= Work(states[0]) && states[|steps|].sh.stop && Inv(states[|steps|])
    ensures Attended(states[|steps|]) <==> Attended(states[0])
    decreases |steps|
  {
    if steps != [] {
      WorkFalls(states[0], steps[0], states[1]);
      StaysAttended(states[0], steps[0], states[1]);
      StepKeepsInv(states[0], steps[0], states[1]);
      WorkersComeToRest(states[1..], steps[1..]);
    }
  }

  /** ... all of them having exited ... */
  lemma RestMeansExited(s: State)
    requires Inv(s) && s.sh.stop && forall w: nat :: !WorkerCanStep(s, w)
    ensures AllExited(s)
  {
    forall w | 0 <= w < |s.workers|
      ensures s.workers[w].Exited?
    {
      assert !WorkerCanStep(s, w);
    }
  }

  /** ... with every message delivered or dropped exactly when, as they set out, nothing was
      queued or some worker had not decided to exit. */
  lemma DrainedIffAttended(states: seq<State>, steps: seq<Step>)
    requires WorkersRun(states, steps) && Inv(states[0]) && states[0].sh.stop && AllExited(states[|steps|])
    ensures AllEnded(states[|steps|]) <==> Attended(states[0])
  {
    WorkersComeToRest(states, steps);
    var end := states[|steps|];
    assert forall m :: !Held(end, m);
    assert !Attended(end) ==> end.msgs[Taken(end)].delivered + end.msgs[Taken(end)].released == 0;
  }

  /** Shutting down a pool that has workers loses nothing that was queued before. */
  lemma ShutdownDrains(states: seq<State>, steps: seq<Step>)
    requires Run(states, steps) && Inv(states[0]) && !states[0].sh.stop && states[0].workers != []
    requires steps != [] && steps[0] == Shutdown && WorkersRun(states[1..], steps[1..])
    requires AllExited(states[|steps|])
    ensures AllEnded(states[|steps|])
  {
    StepKeepsInv(states[0], steps[0], states[1]);
    var s := states[1];
    assert Looking(states[0], 0);
    SignalAllAt(states[0].workers, states[0].sh.waiters, 0);
    assert Looking(s, 0);
    DrainedIffAttended(states[1..], steps[1..]);
  }

  /** What is queued when no worker looks any more stays queued, whatever happens. */
  lemma {:induction false} LateMessagesStay(states: seq<State>, steps: seq<Step>)
    requires Run(states, steps) && Inv(states[0]) && forall w: nat :: !Looking(states[0], w)
    ensures states[0].sh.mqueue <= states[|steps|].sh.mqueue && states[0].msgs <= states[|steps|].msgs
    decreases |steps|
  {
    if steps != [] {
      var s, s' := states[0], states[1];
      StepKeepsInv(s, steps[0], s');
      EveryStepIsSafe(s, steps[0]);
      forall w: nat
        ensures !Looking(s', w)
      {
        assert !Looking(s, w);
        if steps[0].Shutdown? && w < |s.workers| {
          SignalAllAt(s.workers, s.sh.waiters, w);
        }
      }
      if steps[0].Section? || steps[0].CheckStop? {
        assert !Looking(s, steps[0].w);
      }
      assert s.sh.mqueue <= s'.sh.mqueue && s.msgs <= s'.msgs;
      LateMessagesStay(states[1..], steps[1..]);
    }
  }

  ghost predicate DropsOnlyAfter(s: State) {
    !s.sh.stop ==> forall m :: 0 <= m < |s.msgs| ==> s.msgs[m].released == 0
  }

  /** A message is delivered by the thread that holds it when it looks at `stop` while the pool runs,
      and dropped if it looks later. */
  lemma StepDelivers(s: State, step: Step, s': State, m: nat)
    requires Inv(s) && Moves(s, step, s') && m < |s.msgs|
    ensures m < |s'.msgs|
    ensures s'.msgs[m].delivered == s.msgs[m].delivered +
            if step.CheckStop? && Holds(s, step.w, m) && !s.sh.stop then 1 else 0
    ensures s'.msgs[m].released == s.msgs[m].released +
            if step.CheckStop? && Holds(s, step.w, m) && s.sh.stop then 1 else 0
  {
    EveryStepIsSafe(s, step);
  }

  /** As long as the pool runs no message is dropped ... */
  lemma {:induction false} NoneIsDroppedBefore(states: seq<State>, steps: seq<Step>, n: nat)
    requires Run(states, steps) && states[0] == Start(n)
    ensures forall i :: 0 <= i < |states| ==> DropsOnlyAfter(states[i])
    decreases |steps|
  {
    EveryRunIsSafe(states, steps, n);
    if steps != [] {
      hide Inv; hide Moves;
      var last := |steps| - 1;
      NoneIsDroppedBefore(states[..|steps|], steps[..last], n);
      assert forall i :: 0 <= i < |steps| ==> states[..|steps|][i] == states[i];
      assert Moves(states[last], steps[last], states[last + 1]);
      DropsLater(states[last], steps[last], states[last + 1]);
    }
  }

  lemma DropsLater(s: State, step: Step, s': State)
    requires Inv(s) && Moves(s, step, s') && DropsOnlyAfter(s)
    ensures DropsOnlyAfter(s')
  {
    EveryStepIsSafe(s, step);
  }

  /** ... and once it has been stopped none is delivered any more. */
  lemma {:induction false} NoneIsDeliveredAfter(states: seq<State>, steps: seq<Step>, m: nat)
    requires Run(states, steps) && Inv(states[0]) && states[0].sh.stop && m < |states[0].msgs|
    ensures states[|steps|].sh.stop && m < |states[|steps|].msgs|
    ensures states[|steps|].msgs[m].delivered == states[0].msgs[m].delivered
    decreases |steps|
  {
    if steps != [] {
      hide Inv; hide Moves;
      assert Moves(states[0], steps[0], states[1]);
      StepKeepsInv(states[0], steps[0], states[1]);
      StepDelivers(states[0], steps[0], states[1], m);
      StopStays(states[0], steps[0], states[1]);
      RunRest(states, steps);
      NoneIsDeliveredAfter(states[1..], steps[1..], m);
    }
  }

  lemma StopStays(s: State, step: Step, s': State)
    requires Inv(s) && Moves(s, step, s')
    ensures s'.sh.stop == (s.sh.stop || step.Shutdown?)
  {
    EveryStepIsSafe(s, step);
  }

  lemma RunRest(states: seq<State>, steps: seq<Step>)
    requires Run(states, steps) && steps != []
    ensures Run(states[1..], steps[1..])
  {
    hide Moves;
    forall i | 0 <= i < |steps| - 1
      ensures Moves(states[1..][i], steps[1..][i], states[1..][i + 1])
    {
      assert Moves(states[i + 1], steps[i + 1], states[i + 2]);
    }
  }

  lemma OneStepMore(states: seq<State>, steps: seq<Step>, step: Step, s': State) returns (more: seq<State>)
    requires Run(states, steps) && Enabled(states[|steps|], step) && Safe(states[|steps|], step)
    requires s' == Apply(states[|steps|], step)
    ensures more == states + [s'] && Run(more, steps + [step])
  {
    hide Enabled; hide Safe; hide Apply;
    more := states + [s'];
    forall i | 0 <= i < |steps| + 1
      ensures Moves(more[i], (steps + [step])[i], more[i + 1])
    {
      assert i < |steps| ==> Moves(states[i], steps[i], states[i + 1]);
    }
  }

  /** Stopped, with the first k of n workers having decided to exit. */
  function Leaving(n: nat, k: nat): State {
    State(Shared(true, [], []), seq(n, w => if w < k then Holding(None) else AtLock), [])
  }

  lemma {:induction false} TheyLeave(n: nat, k: nat) returns (states: seq<State>, steps: seq<Step>)
    requires k <= n
    ensures Run(states, steps) && |steps| == k + 1 && |states| == k + 2
    ensures states[0] == Start(n) && states[k + 1] == Leaving(n, k)
    decreases k
  {
    hide Run;
    if k == 0 {
      states := JustStarted(n);
      states := OneStepMore(states, [], Shutdown, Leaving(n, 0));
      steps := [] + [Shutdown];
    } else {
      states, steps := TheyLeave(n, k - 1);
      states := OneStepMore(states, steps, Section(k - 1), Leaving(n, k));
      steps := steps + [Section(k - 1)];
    }
  }

  lemma JustStarted(n: nat) returns (states: seq<State>)
    ensures states == [Start(n)] && Run(states, [])
  {
    states := [Start(n)];
  }

  /** However many workers there are: stopped before they find anything to do, all decide to exit, and
      then a message comes, which stays. */
  lemma UnattendedAfterStop(n: nat) returns (states: seq<State>, steps: seq<Step>)
    ensures Run(states, steps) && |steps| == n + 2 && states[0] == Start(n)
    ensures states[n + 2].sh.stop && states[n + 2].sh.mqueue == [0] && !Attended(states[n + 2])
  {
    hide Run;
    states, steps := TheyLeave(n, n);
    var s' := Apply(Leaving(n, n), Dispatch);
    states := OneStepMore(states, steps, Dispatch, s');
    steps := steps + [Dispatch];
    assert s'.workers == Leaving(n, n).workers;
  }

  // ---------- the object ----------

  /** The queue strategy's own fields and the code between its lock and its unlock. */
  class QueueStrategy {
    var stop: bool
    var mqueue: seq<nat>
    var dispThreads: seq<nat>

    constructor ()
      ensures View() == Shared(false, [], [])
    {
      stop, mqueue, dispThreads := false, [], [];
    }

    ghost function View(): Shared
      reads this
    {
      Shared(stop, mqueue, dispThreads)
    }

    /** @param signalled  the thread whose condition is signalled, if any */
    method DsDispatch(m: nat) returns (signalled: Option<nat>)
      modifies this
      ensures (View(), signalled) == DispatchSection(old(View()), m)
      ensures stop == old(stop) && mqueue == old(mqueue) + [m]
      ensures old(dispThreads) == [] ==> signalled == None && dispThreads == []
      ensures old(dispThreads) != [] ==> signalled.Some? && old(dispThreads) == [signalled.value] + dispThreads
    {
      signalled := None;
      mqueue := mqueue + [m];
      if |dispThreads| != 0 {
        var thrd := dispThreads[0];
        dispThreads := dispThreads[1..];
        signalled := Some(thrd);
      }
    }

    /** From taking the lock, or coming back from the wait, to giving it up. */
    method Entry(thrd: nat) returns (outcome: Outcome)
      modifies this
      ensures (View(), outcome) == EntrySection(old(View()), thrd)
      ensures stop == old(stop)
      ensures match outcome
              case Go(Some(m)) => old(mqueue) == [m] + mqueue && dispThreads == old(dispThreads)
              case Go(None) => stop && mqueue == old(mqueue) == [] && dispThreads == old(dispThreads)
              case Sleep => !stop && mqueue == old(mqueue) == [] && dispThreads == [thrd] + old(dispThreads)
    {
      if mqueue != [] {
        var m := mqueue[0];
        mqueue := mqueue[1..];
        return Go(Some(m));
      }
      if stop {
        return Go(None);
      }
      dispThreads := [thrd] + dispThreads;
      return Sleep;
    }

    /** @param signalled  the threads whose conditions are signalled, in order */
    method ShutDown() returns (signalled: seq<nat>)
      modifies this
      ensures (View(), signalled) == ShutdownSection(old(View()))
      ensures stop && mqueue == old(mqueue) && dispThreads == [] && signalled == old(dispThreads)
    {
      stop := true;
      signalled := [];
      while |dispThreads| != 0
        invariant signalled + dispThreads == old(dispThreads) && mqueue == old(mqueue) && stop
        decreases |dispThreads|
      {
        var thrd := dispThreads[0];
        dispThreads := dispThreads[1..];
        signalled := signalled + [thrd];
      }
      assert signalled + [] == signalled;
    }
  }
}
