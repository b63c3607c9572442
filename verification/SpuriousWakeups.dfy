/** The worker pool on condition variables that may wake a thread nobody has signalled.

    Such a thread is still on the list of waiters. It stays there until somebody who queues a message,
    or stops the pool, takes it off; if it finds nothing to do before that, it links itself a second
    time. Any number of threads may wake like that, at any time. */
module SpuriousWakeups {
  import opened Prelude
  import opened WorkerPool

  datatype Event = Pool(step: Step) | Wake(w: nat)

  predicate Possible(s: State, e: Event) {
    match e
    case Pool(step) => Enabled(s, step)
    case Wake(w) => w < |s.workers| && s.workers[w] == Sleeping(false)
  }

  predicate Harmless(s: State, e: Event) {
    Possible(s, e) && (e.Pool? ==> Safe(s, e.step))
  }

  function After(s: State, e: Event): State
    requires Harmless(s, e)
  {
    match e
    case Pool(step) => Apply(s, step)
    case Wake(w) => s.(workers := s.workers[w := Sleeping(true)])
  }

  /** Nothing is known of the state after an unsafe step. */
  ghost predicate Happens(s: State, e: Event, s': State) {
    Possible(s, e) && (Harmless(s, e) ==> s' == After(s, e))
  }

  ghost predicate History(states: seq<State>, events: seq<Event>) {
    |states| == |events| + 1 && forall i :: 0 <= i < |events| ==> Happens(states[i], events[i], states[i + 1])
  }

  // ---------- the threads that are awake and still listed ----------

  /** An unsignalled wakeup makes a thread stray; being taken off the list ends that. */
  function StrayAfter(s: State, stray: set<nat>, e: Event): set<nat> {
    match e
    case Wake(w) => stray + {w}
    case Pool(Dispatch) => if s.sh.waiters == [] then stray else stray - {s.sh.waiters[0]}
    case Pool(Shutdown) => {}
    case Pool(_) => stray
  }

  function Stray(states: seq<State>, events: seq<Event>): set<nat>
    requires |states| == |events| + 1
  {
    if events == [] then {}
    else
      var last := |events| - 1;
      StrayAfter(states[last], Stray(states[..|events|], events[..last]), events[last])
  }

  /** The list has the unsignalled sleepers and the stray threads, each once. */
  ghost predicate Listed(s: State, stray: set<nat>) {
    && NoDuplicates(s.sh.waiters)
    && (forall w :: w in stray ==> w < |s.workers| && s.workers[w] != Sleeping(false))
    && (forall w: nat ::
          w in s.sh.waiters <==> w in stray || (w < |s.workers| && s.workers[w] == Sleeping(false)))
  }

  /** What workers hold has been queued, and nobody leaves before the stop. */
  ghost predicate Orderly(s: State) {
    && (forall i :: 0 <= i < |s.sh.mqueue| ==> s.sh.mqueue[i] < |s.msgs|)
    && (forall w :: 0 <= w < |s.workers| && s.workers[w].Holding? ==>
          if s.workers[w].m.None? then s.sh.stop else s.workers[w].m.value < |s.msgs|)
  }

  /** A stray thread looks for a message, finds none and has not been told to stop. */
  predicate LooksInVain(s: State, stray: set<nat>, e: Event) {
    e.Pool? && e.step.Section? && e.step.w in stray && s.sh.mqueue == [] && !s.sh.stop
  }

  /** That, and nothing else, links a node that is linked. */
  lemma HarmlessIff(s: State, stray: set<nat>, e: Event)
    requires Listed(s, stray) && Orderly(s) && Possible(s, e)
    ensures Harmless(s, e) <==> !LooksInVain(s, stray, e)
  {
  }

  // ---------- a harmless step keeps order ----------

  lemma WakeKeeps(s: State, stray: set<nat>, w: nat)
    requires Listed(s, stray) && Orderly(s) && Possible(s, Wake(w))
    ensures Listed(After(s, Wake(w)), stray + {w}) && Orderly(After(s, Wake(w)))
  {
  }

  lemma DispatchKeepsList(s: State, stray: set<nat>)
    requires Listed(s, stray)
    ensures Listed(Apply(s, Dispatch), StrayAfter(s, stray, Pool(Dispatch)))
  {
    if s.sh.waiters != [] {
      var first, rest := s.sh.waiters[0], s.sh.waiters[1..];
      assert s.sh.waiters == [first] + rest;
      assert forall w :: w in s.sh.waiters <==> w == first || w in rest;
      assert first !in rest;
    }
  }

  lemma ShutdownKeepsList(s: State, stray: set<nat>)
    requires Listed(s, stray)
    ensures Listed(Apply(s, Shutdown), {})
  {
    forall w | 0 <= w < |s.workers|
      ensures SignalAll(s.workers, s.sh.waiters)[w] != Sleeping(false)
    {
      SignalAllAt(s.workers, s.sh.waiters, w);
    }
  }

  lemma StepKeepsList(s: State, stray: set<nat>, step: Step)
    requires Listed(s, stray) && Enabled(s, step) && Safe(s, step)
    ensures Listed(Apply(s, step), StrayAfter(s, stray, Pool(step)))
  {
    match step
    case Dispatch => DispatchKeepsList(s, stray);
    case Shutdown => ShutdownKeepsList(s, stray);
    case _ =>
  }

  lemma StepKeepsOrderly(s: State, step: Step)
    requires Orderly(s) && Enabled(s, step) && Safe(s, step)
    ensures Orderly(Apply(s, step))
  {
    if step.Shutdown? {
      forall w | 0 <= w < |s.workers|
        ensures SignalAll(s.workers, s.sh.waiters)[w].Holding? ==> SignalAll(s.workers, s.sh.waiters)[w] == s.workers[w]
      {
        SignalAllAt(s.workers, s.sh.waiters, w);
      }
    }
  }

  lemma EventKeeps(s: State, stray: set<nat>, e: Event)
    requires Listed(s, stray) && Orderly(s) && Harmless(s, e)
    ensures Listed(After(s, e), StrayAfter(s, stray, e)) && Orderly(After(s, e))
  {
    match e
    case Wake(w) => WakeKeeps(s, stray, w);
    case Pool(step) =>
      StepKeepsList(s, stray, step);
      StepKeepsOrderly(s, step);
  }

  // ---------- whole histories ----------

  ghost predicate AllHarmless(states: seq<State>, events: seq<Event>)
    requires |states| == |events| + 1
  {
    forall i :: 0 <= i < |events| ==> Harmless(states[i], events[i])
  }

  ghost predicate NoneInVain(states: seq<State>, events: seq<Event>)
    requires |states| == |events| + 1
  {
    forall i :: 0 <= i < |events| ==> !LooksInVain(states[i], Stray(states[..i + 1], events[..i]), events[i])
  }

  /** From the start on, no step links a node twice exactly as long as no stray thread looks in vain:
      a queued message only puts the moment off. */
  lemma {:induction false} SafeIffNoneInVain(states: seq<State>, events: seq<Event>, n: nat)
    requires History(states, events) && states[0] == Start(n)
    ensures AllHarmless(states, events) <==> NoneInVain(states, events)
    ensures AllHarmless(states, events) ==>
              Listed(states[|events|], Stray(states, events)) && Orderly(states[|events|])
    decreases |events|
  {
    hide Listed; hide Orderly; hide Harmless; hide Possible; hide LooksInVain; hide Stray; hide Happens;
    if events == [] {
      NobodyStraysAtFirst(states, n);
    } else {
      var last := |events| - 1;
      FrontOf(states, events);
      SafeIffNoneInVain(states[..|events|], events[..last], n);
      SplitLast(states, events);
      if AllHarmless(states[..|events|], events[..last]) {
        HarmlessIff(states[last], Stray(states[..|events|], events[..last]), events[last]);
        if Harmless(states[last], events[last]) {
          EventKeeps(states[last], Stray(states[..|events|], events[..last]), events[last]);
          StrayUnfolds(states, events);
        }
      }
    }
  }

  lemma NobodyStraysAtFirst(states: seq<State>, n: nat)
    requires |states| == 1 && states[0] == Start(n)
    ensures Listed(states[0], Stray(states, [])) && Orderly(states[0])
  {
  }

  lemma FrontOf(states: seq<State>, events: seq<Event>)
    requires History(states, events) && events != []
    ensures History(states[..|events|], events[..|events| - 1])
    ensures Happens(states[|events| - 1], events[|events| - 1], states[|events|])
    ensures Possible(states[|events| - 1], events[|events| - 1])
  {
  }

  lemma StrayUnfolds(states: seq<State>, events: seq<Event>)
    requires History(states, events) && events != []
    requires Harmless(states[|events| - 1], events[|events| - 1])
    ensures var last := |events| - 1;
            && states[|events|] == After(states[last], events[last])
            && Stray(states, events) ==
               StrayAfter(states[last], Stray(states[..|events|], events[..last]), events[last])
  {
    assert Happens(states[|events| - 1], events[|events| - 1], states[|events|]);
  }

  lemma SplitLast(states: seq<State>, events: seq<Event>)
    requires History(states, events) && events != [] && History(states[..|events|], events[..|events| - 1])
    ensures var last := |events| - 1;
            && (AllHarmless(states, events) <==>
                  AllHarmless(states[..|events|], events[..last]) && Harmless(states[last], events[last]))
            && (NoneInVain(states, events) <==>
                  && NoneInVain(states[..|events|], events[..last])
                  && !LooksInVain(states[last], Stray(states[..|events|], events[..last]), events[last]))
  {
    hide Stray; hide Harmless; hide LooksInVain; hide Happens;
    var last := |events| - 1;
    forall i | 0 <= i < last
      ensures states[..|events|][i] == states[i] && events[..last][i] == events[i]
      ensures states[..|events|][..i + 1] == states[..i + 1] && events[..last][..i] == events[..i]
    {
    }
  }

  /** Queueing a message wakes a thread exactly if the first on the list is not awake already. */
  lemma DispatchWakesIff(s: State, stray: set<nat>)
    requires Listed(s, stray)
    ensures Apply(s, Dispatch).workers != s.workers <==> s.sh.waiters != [] && s.sh.waiters[0] !in stray
  {
  }

  // ---------- two histories ----------

  /** One more thing happens. */
  lemma Goes(states: seq<State>, events: seq<Event>, e: Event, s': State) returns (more: seq<State>)
    requires History(states, events) && Harmless(states[|events|], e) && s' == After(states[|events|], e)
    ensures more == states + [s'] && History(more, events + [e])
    ensures AllHarmless(states, events) ==> AllHarmless(more, events + [e])
    ensures Stray(more, events + [e]) == StrayAfter(states[|events|], Stray(states, events), e)
  {
    more := states + [s'];
    assert more[..|events| + 1] == states && (events + [e])[..|events|] == events;
    forall i | 0 <= i < |events| + 1
      ensures Happens(more[i], (events + [e])[i], more[i + 1])
    {
      if i < |events| {
        assert Happens(states[i], events[i], states[i + 1]);
      }
    }
  }

  lemma AtFirst(n: nat) returns (states: seq<State>)
    ensures states == [Start(n)] && History(states, []) && AllHarmless(states, []) && Stray(states, []) == {}
  {
    states := [Start(n)];
  }

  /** Two threads go to sleep and a message is queued, which signals the second of them. */
  lemma TwoSleepOneMessage() returns (states: seq<State>, events: seq<Event>)
    ensures History(states, events) && AllHarmless(states, events) && states[0] == Start(2)
    ensures events == [Pool(Section(0)), Pool(Section(1)), Pool(Dispatch)]
    ensures |states| == 4 && Stray(states, events) == {}
    ensures states[3] == State(Shared(false, [0], [0]), [Sleeping(false), Sleeping(true)], [Msg(0, 0)])
  {
    hide History; hide AllHarmless; hide Stray;
    states := AtFirst(2);
    events := [];
    states := Goes(states, events, Pool(Section(0)), State(Shared(false, [], [0]), [Sleeping(false), AtLock], []));
    events := events + [Pool(Section(0))];
    states := Goes(states, events, Pool(Section(1)),
                   State(Shared(false, [], [1, 0]), [Sleeping(false), Sleeping(false)], []));
    events := events + [Pool(Section(1))];
    states := Goes(states, events, Pool(Dispatch),
                   State(Shared(false, [0], [0]), [Sleeping(false), Sleeping(true)], [Msg(0, 0)]));
    events := events + [Pool(Dispatch)];
  }

  /** Then the other one wakes, takes the message and delivers it: nothing has gone wrong yet, but now
      it would link itself a second time, and a message queued meanwhile would wake nobody. */
  lemma MessageOnlyPutsItOff() returns (states: seq<State>, events: seq<Event>)
    ensures History(states, events) && states[0] == Start(2) && AllHarmless(states, events)
    ensures events == [Pool(Section(0)), Pool(Section(1)), Pool(Dispatch),
                       Wake(0), Pool(Section(0)), Pool(CheckStop(0))]
    ensures |states| == 7 && states[6].msgs == [Msg(1, 0)]
    ensures Enabled(states[6], Section(0)) && !Safe(states[6], Section(0))
    ensures Stray(states, events) == {0} && Apply(states[6], Dispatch).workers == states[6].workers
  {
    hide History; hide AllHarmless; hide Stray;
    states, events := TwoSleepOneMessage();
    states := Goes(states, events, Wake(0),
                   State(Shared(false, [0], [0]), [Sleeping(true), Sleeping(true)], [Msg(0, 0)]));
    events := events + [Wake(0)];
    states := Goes(states, events, Pool(Section(0)),
                   State(Shared(false, [], [0]), [Holding(Some(0)), Sleeping(true)], [Msg(0, 0)]));
    events := events + [Pool(Section(0))];
    states := Goes(states, events, Pool(CheckStop(0)),
                   State(Shared(false, [], [0]), [AtLock, Sleeping(true)], [Msg(1, 0)]));
    events := events + [Pool(CheckStop(0))];
  }
}
