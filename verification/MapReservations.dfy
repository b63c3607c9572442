/** Reservations of OSD maps: senders reserve the map that is about to be published, and the
    publisher waits until no older map is reserved.

    Every method runs under one lock and is one step; waiting releases the lock. Signalling wakes
    one of the threads that wait on the condition. */
module MapReservations {
  import opened Prelude

  // ---------- the reservation counters ----------

  /** An epoch is counted as long as a reservation of it is outstanding. */
  function Reserve(res: map<nat, nat>, e: nat): map<nat, nat> {
    res[e := (if e in res then res[e] else 0) + 1]
  }

  predicate ReleaseSafe(res: map<nat, nat>, e: nat) {
    e in res && res[e] > 0
  }

  function Release(res: map<nat, nat>, e: nat): map<nat, nat>
    requires ReleaseSafe(res, e)
  {
    if res[e] == 1 then res - {e} else res[e := res[e] - 1]
  }

  /** What await_reserved_maps waits for: the smallest reserved epoch is not below e. */
  ghost predicate NoneBelow(res: map<nat, nat>, e: nat) {
    forall x :: x in res ==> x >= e
  }

  // ---------- the machine ----------

  datatype Awaiter = Away | Checking | Sleeping(signalled: bool)

  /** held: the epochs of the maps reserved and not yet released, in the order they were reserved. */
  datatype State = State(next: Option<nat>, res: map<nat, nat>, held: seq<nat>, awaiters: seq<Awaiter>)

  datatype Step =
    | PrePublish(e: nat)
    | GetReserved
    | ReleaseMap(k: nat, wake: nat)
    | Await(a: nat)
    | Check(a: nat)

  function Start(n: nat): State {
    State(None, map[], [], seq(n, _ => Away))
  }

  ghost predicate Asleep(s: State, a: nat) {
    a < |s.awaiters| && s.awaiters[a] == Sleeping(false)
  }

  /** Epochs grow, only a map that is held is released, and a signal goes to a sleeper if there is
      one. await_reserved_maps may be called once a map has been pre-published. */
  ghost predicate Enabled(s: State, step: Step) {
    match step
    case PrePublish(e) => s.next.None? || s.next.value < e
    case GetReserved => true
    case ReleaseMap(k, wake) => k < |s.held| && ((exists a :: Asleep(s, a)) ==> Asleep(s, wake))
    case Await(a) => a < |s.awaiters| && s.awaiters[a].Away? && s.next.Some?
    case Check(a) => a < |s.awaiters| && (s.awaiters[a].Checking? || s.awaiters[a] == Sleeping(true))
  }

  ghost predicate Safe(s: State, step: Step)
    requires Enabled(s, step)
  {
    match step
    case ReleaseMap(k, _) => ReleaseSafe(s.res, s.held[k])
    case Check(_) => s.next.Some?
    case _ => true
  }

  ghost function Apply(s: State, step: Step): State
    requires Enabled(s, step) && Safe(s, step)
  {
    match step
    case PrePublish(e) => s.(next := Some(e))
    case GetReserved =>
      if s.next.None? then s
      else s.(res := Reserve(s.res, s.next.value), held := s.held + [s.next.value])
    case ReleaseMap(k, wake) =>
      s.(res := Release(s.res, s.held[k]), held := RemoveAt(s.held, k),
         awaiters := if Asleep(s, wake) then s.awaiters[wake := Sleeping(true)] else s.awaiters)
    case Await(a) => s.(awaiters := s.awaiters[a := Checking])
    case Check(a) =>
      s.(awaiters := s.awaiters[a := if NoneBelow(s.res, s.next.value) then Away else Sleeping(false)])
  }

  /** Nobody is kept from calling: any newer epoch may be pre-published, the next map reserved, and any
      reservation given back, whichever of the sleepers the signal then picks. */
  lemma CallersAreFree(s: State, e: nat, k: nat, wake: nat)
    ensures Enabled(s, GetReserved)
    ensures s.next.None? || s.next.value < e ==> Enabled(s, PrePublish(e))
    ensures k < |s.held| && (Asleep(s, wake) || forall a :: !Asleep(s, a)) ==> Enabled(s, ReleaseMap(k, wake))
  {
  }

  ghost predicate Moves(s: State, step: Step, s': State) {
    Enabled(s, step) && (Safe(s, step) ==> s' == Apply(s, step))
  }

  ghost predicate Run(states: seq<State>, steps: seq<Step>) {
    |states| == |steps| + 1 && forall i :: 0 <= i < |steps| ==> Moves(states[i], steps[i], states[i + 1])
  }

  // ---------- counting what is held ----------

  function Count(held: seq<nat>, e: nat): nat {
    if held == [] then 0 else Count(held[..|held| - 1], e) + if held[|held| - 1] == e then 1 else 0
  }

  /** How many reservations are outstanding on epochs below e. */
  function Below(held: seq<nat>, e: nat): nat {
    if held == [] then 0 else Below(held[..|held| - 1], e) + if held[|held| - 1] < e then 1 else 0
  }

  lemma {:induction false} Without(held: seq<nat>, k: nat, e: nat)
    requires k < |held|
    ensures Count(RemoveAt(held, k), e) == Count(held, e) - if held[k] == e then 1 else 0
    ensures Below(RemoveAt(held, k), e) == Below(held, e) - if held[k] < e then 1 else 0
  {
    var last := |held| - 1;
    if k == last {
      assert RemoveAt(held, k) == held[..last];
    } else {
      Without(held[..last], k, e);
      assert RemoveAt(held, k)[..last - 1] == RemoveAt(held[..last], k);
    }
  }

  lemma With(held: seq<nat>, x: nat, e: nat)
    ensures Count(held + [x], e) == Count(held, e) + if x == e then 1 else 0
    ensures Below(held + [x], e) == Below(held, e) + if x < e then 1 else 0
  {
    assert (held + [x])[..|held|] == held;
  }

  lemma {:induction false} CountIsPositiveIff(held: seq<nat>, e: nat)
    ensures Count(held, e) > 0 <==> e in held
  {
    if held != [] {
      CountIsPositiveIff(held[..|held| - 1], e);
      assert held == held[..|held| - 1] + [held[|held| - 1]];
    }
  }

  lemma {:induction false} BelowGrows(held: seq<nat>, e: nat, e': nat)
    requires e <= e'
    ensures Below(held, e) <= Below(held, e')
    ensures Below(held, e) == 0 <==> forall i :: 0 <= i < |held| ==> held[i] >= e
  {
    if held != [] {
      BelowGrows(held[..|held| - 1], e, e');
    }
  }

  // ---------- the invariant ----------

  /** The counters say how often each epoch is held. */
  ghost predicate Counted(s: State) {
    && (forall e :: e in s.res <==> Count(s.held, e) > 0)
    && (forall e :: e in s.res ==> s.res[e] == Count(s.held, e))
  }

  ghost predicate Inv(s: State) {
    && Counted(s)
    && (s.next.None? ==> s.held == [])
    && (forall i :: 0 <= i < |s.held| ==> s.next.Some? && s.held[i] <= s.next.value)
    && (forall a :: 0 <= a < |s.awaiters| && !s.awaiters[a].Away? ==> s.next.Some?)
  }

  lemma EveryStepIsSafe(s: State, step: Step)
    requires Inv(s) && Enabled(s, step)
    ensures Safe(s, step)
  {
    if step.ReleaseMap? {
      CountIsPositiveIff(s.held, s.held[step.k]);
    }
  }

  lemma ReserveKeepsCounted(s: State, e: nat)
    requires Counted(s)
    ensures Counted(s.(res := Reserve(s.res, e), held := s.held + [e]))
  {
    forall x: nat
      ensures Count(s.held + [e], x) == Count(s.held, x) + if e == x then 1 else 0
    {
      With(s.held, e, x);
    }
  }

  lemma ReleaseKeepsCounted(s: State, k: nat)
    requires Counted(s) && k < |s.held| && ReleaseSafe(s.res, s.held[k])
    ensures Counted(s.(res := Release(s.res, s.held[k]), held := RemoveAt(s.held, k)))
  {
    forall x: nat
      ensures Count(RemoveAt(s.held, k), x) == Count(s.held, x) - if s.held[k] == x then 1 else 0
    {
      Without(s.held, k, x);
    }
  }

  lemma StepKeepsInv(s: State, step: Step, s': State)
    requires Inv(s) && Moves(s, step, s')
    ensures Inv(s')
  {
    EveryStepIsSafe(s, step);
    match step
    case GetReserved =>
      if s.next.Some? {
        ReserveKeepsCounted(s, s.next.value);
      }
    case ReleaseMap(k, _) => ReleaseKeepsCounted(s, k);
    case _ =>
  }

  lemma {:induction false} EveryRunIsSafe(states: seq<State>, steps: seq<Step>, n: nat)
    requires Run(states, steps) && states[0] == Start(n)
    ensures forall i :: 0 <= i < |states| ==> Inv(states[i])
    ensures forall i :: 0 <= i < |steps| ==> Enabled(states[i], steps[i]) && Safe(states[i], steps[i])
    decreases |steps|
  {
    if steps != [] {
      var last := |steps| - 1;
      EveryRunIsSafe(states[..|steps|], steps[..last], n);
      assert forall i :: 0 <= i < |steps| ==> states[..|steps|][i] == states[i];
      assert forall i :: 0 <= i < last ==> steps[..last][i] == steps[i];
      assert Moves(states[last], steps[last], states[last + 1]);
      StepKeepsInv(states[last], steps[last], states[last + 1]);
      EveryStepIsSafe(states[last], steps[last]);
    }
  }

  // ---------- the barrier ----------

  /** The counters let a waiter through exactly when no older map is held. */
  lemma BarrierOpensIff(s: State, e: nat)
    requires Counted(s)
    ensures NoneBelow(s.res, e) <==> Below(s.held, e) == 0
  {
    BelowGrows(s.held, e, e);
    forall x: nat
      ensures x in s.res <==> x in s.held
    {
      CountIsPositiveIff(s.held, x);
    }
    assert forall i :: 0 <= i < |s.held| ==> s.held[i] in s.held;
  }

  predicate ReleasesOlder(s: State, step: Step, e: nat) {
    step.ReleaseMap? && step.k < |s.held| && s.held[step.k] < e
  }

  /** As long as no newer map is pre-published, older reservations become fewer with each release of
      an older map, and never more. */
  lemma OlderReservationsFall(s: State, step: Step, s': State)
    requires Inv(s) && Moves(s, step, s') && s.next.Some? && !step.PrePublish?
    ensures s'.next == s.next
    ensures Below(s'.held, s.next.value) ==
            Below(s.held, s.next.value) - if ReleasesOlder(s, step, s.next.value) then 1 else 0
  {
    EveryStepIsSafe(s, step);
    match step
    case GetReserved => With(s.held, s.next.value, s.next.value);
    case ReleaseMap(k, _) => Without(s.held, k, s.next.value);
    case _ =>
  }

  function OlderReleases(states: seq<State>, steps: seq<Step>, e: nat): nat
    requires |states| == |steps| + 1
  {
    if steps == [] then 0
    else (if ReleasesOlder(states[0], steps[0], e) then 1 else 0) + OlderReleases(states[1..], steps[1..], e)
  }

  /** While a publisher waits, the barrier opens after exactly as many releases of older maps as were
      outstanding when it began. */
  lemma {:induction false} BarrierOpensInTime(states: seq<State>, steps: seq<Step>)
    requires Run(states, steps) && Inv(states[0]) && states[0].next.Some?
    requires forall i :: 0 <= i < |steps| ==> !steps[i].PrePublish?
    ensures var e, end := states[0].next.value, states[|steps|];
            && Inv(end) && end.next == states[0].next
            && OlderReleases(states, steps, e) + Below(end.held, e) == Below(states[0].held, e)
            && (NoneBelow(end.res, e) <==> OlderReleases(states, steps, e) == Below(states[0].held, e))
    decreases |steps|
  {
    var e := states[0].next.value;
    if steps == [] {
      BarrierOpensIff(states[0], e);
    } else {
      OlderReservationsFall(states[0], steps[0], states[1]);
      StepKeepsInv(states[0], steps[0], states[1]);
      BarrierOpensInTime(states[1..], steps[1..]);
    }
  }

  /** One look of await_reserved_maps: the waiter returns exactly if no reservation of an older map is
      outstanding, and goes to sleep otherwise; nobody else notices. */
  lemma PassesIffNoneOlder(s: State, a: nat, s': State)
    requires Inv(s) && Moves(s, Check(a), s')
    ensures s.next.Some?
    ensures s' == s.(awaiters := s.awaiters[a := if Below(s.held, s.next.value) == 0 then Away else Sleeping(false)])
  {
    EveryStepIsSafe(s, Check(a));
    BarrierOpensIff(s, s.next.value);
  }

  /** Nobody leaves await_reserved_maps in any other way. */
  lemma OnlyALookPasses(s: State, step: Step, s': State, a: nat)
    requires Inv(s) && Moves(s, step, s') && a < |s.awaiters| && !s.awaiters[a].Away?
    ensures a < |s'.awaiters|
    ensures s'.awaiters[a].Away? ==> step == Check(a) && s.next.Some? && Below(s.held, s.next.value) == 0
  {
    EveryStepIsSafe(s, step);
    if step.Check? {
      BarrierOpensIff(s, s.next.value);
    }
  }

  /** What a step does to the reservations of epoch e: one more if e is the published map and somebody
      reserves it, one less if somebody releases it. */
  function Change(s: State, step: Step, e: nat): int {
    match step
    case GetReserved => if s.next == Some(e) then 1 else 0
    case ReleaseMap(k, _) => if k < |s.held| && s.held[k] == e then -1 else 0
    case _ => 0
  }

  function Outstanding(states: seq<State>, steps: seq<Step>, e: nat): int
    requires |states| == |steps| + 1
  {
    if steps == [] then 0
    else
      var last := |steps| - 1;
      Outstanding(states[..|steps|], steps[..last], e) + Change(states[last], steps[last], e)
  }

  lemma StepCounts(s: State, step: Step, s': State, e: nat)
    requires Inv(s) && Moves(s, step, s')
    ensures Count(s'.held, e) == Count(s.held, e) + Change(s, step, e)
    ensures s'.next == if step.PrePublish? then Some(step.e) else s.next
  {
    EveryStepIsSafe(s, step);
    match step
    case GetReserved =>
      if s.next.Some? {
        With(s.held, s.next.value, e);
      }
    case ReleaseMap(k, _) => Without(s.held, k, e);
    case _ =>
  }

  /** In every run each epoch is counted as often as it was reserved and not yet released. */
  lemma {:induction false} CountsAreOutstanding(states: seq<State>, steps: seq<Step>, n: nat, e: nat)
    requires Run(states, steps) && states[0] == Start(n)
    ensures var res := states[|steps|].res;
            (if e in res then res[e] else 0) == Outstanding(states, steps, e)
    ensures Count(states[|steps|].held, e) == Outstanding(states, steps, e)
    decreases |steps|
  {
    EveryRunIsSafe(states, steps, n);
    if steps != [] {
      hide Inv; hide Moves; hide Change;
      var last := |steps| - 1;
      assert forall i :: 0 <= i < |steps| ==> states[..|steps|][i] == states[i];
      CountsAreOutstanding(states[..|steps|], steps[..last], n, e);
      assert Moves(states[last], steps[last], states[last + 1]);
      StepCounts(states[last], steps[last], states[last + 1], e);
    }
    CountIs(states[|steps|], e);
  }

  lemma CountIs(s: State, e: nat)
    requires Inv(s)
    ensures Count(s.held, e) == if e in s.res then s.res[e] else 0
  {
  }

  // ---------- wakeups ----------

  /** A sleeper that waits for nothing. */
  ghost predicate Oversleeps(s: State, a: nat) {
    Asleep(s, a) && (s.next.None? || Below(s.held, s.next.value) == 0)
  }

  /** A single waiter is always woken in time. */
  lemma OneWaiterIsWoken(s: State, step: Step, s': State)
    requires Inv(s) && Moves(s, step, s') && |s.awaiters| == 1 && !Oversleeps(s, 0)
    ensures |s'.awaiters| == 1 && !Oversleeps(s', 0)
  {
    EveryStepIsSafe(s, step);
    match step
    case PrePublish(e) =>
      if s.next.Some? {
        BelowGrows(s.held, s.next.value, e);
      }
    case GetReserved =>
      if s.next.Some? {
        With(s.held, s.next.value, s.next.value);
      }
    case ReleaseMap(k, wake) =>
      if Asleep(s, 0) {
        assert exists a :: Asleep(s, a);
        assert wake == 0;
      }
    case Await(_) =>
    case Check(_) => BarrierOpensIff(s, s.next.value);
  }

  /** The release of the last older map signals one waiter: everybody else who waits is left asleep,
      although nothing holds them up any more. */
  lemma LastReleaseWakesOne(s: State, k: nat, wake: nat, s': State)
    requires Inv(s) && s.next.Some? && Moves(s, ReleaseMap(k, wake), s')
    requires s.held[k] < s.next.value && Below(s.held, s.next.value) == 1
    ensures forall a: nat :: Oversleeps(s', a) <==> Asleep(s, a) && a != wake
  {
    EveryStepIsSafe(s, ReleaseMap(k, wake));
    Without(s.held, k, s.next.value);
  }

  /** Map 1 is pre-published and reserved, then map 2 is pre-published. */
  lemma ReservedAndOutdated() returns (states: seq<State>, steps: seq<Step>)
    ensures Run(states, steps) && |steps| == 3 && states[0] == Start(2)
    ensures states[3] == State(Some(2), map[1 := 1], [1], [Away, Away])
  {
    var none := [Away, Away];
    assert Start(2).awaiters == none;
    steps := [PrePublish(1), GetReserved, PrePublish(2)];
    states := [Start(2), State(Some(1), map[], [], none),
               State(Some(1), map[1 := 1], [1], none), State(Some(2), map[1 := 1], [1], none)];
    assert Moves(states[0], steps[0], states[1]);
    assert Moves(states[1], steps[1], states[2]);
    assert Moves(states[2], steps[2], states[3]);
  }

  /** A publisher that waits for map 1 goes to sleep. */
  lemma FallsAsleep(s: State, a: nat) returns (mid: State, s': State)
    requires s.next == Some(2) && s.res == map[1 := 1] && a < |s.awaiters| && s.awaiters[a].Away?
    ensures Moves(s, Await(a), mid) && Moves(mid, Check(a), s')
    ensures s' == s.(awaiters := s.awaiters[a := Sleeping(false)])
  {
    mid := s.(awaiters := s.awaiters[a := Checking]);
    assert 1 in mid.res && !NoneBelow(mid.res, 2);
    s' := s.(awaiters := s.awaiters[a := Sleeping(false)]);
    assert mid.awaiters[a := Sleeping(false)] == s'.awaiters;
  }

  lemma OneStepMore(states: seq<State>, steps: seq<Step>, step: Step, s': State)
    requires Run(states, steps) && Moves(states[|steps|], step, s')
    ensures Run(states + [s'], steps + [step])
  {
    hide Moves;
    var all, allSteps := states + [s'], steps + [step];
    forall i | 0 <= i < |allSteps|
      ensures Moves(all[i], allSteps[i], all[i + 1])
    {
      assert i < |steps| ==> Moves(states[i], steps[i], states[i + 1]);
    }
  }

  /** From the start, with two waiters, this happens: map 1 is released, nothing is held any more, and
      the second waiter sleeps on. */
  lemma SecondWaiterOversleeps() returns (states: seq<State>, steps: seq<Step>)
    ensures Run(states, steps) && states[0] == Start(2)
    ensures Oversleeps(states[|steps|], 1) && states[|steps|].held == []
  {
    hide Moves; hide Run;
    states, steps := ReservedAndOutdated();
    RunLength(states, steps);
    var s0 := states[3];
    var mid, s1 := FallsAsleep(s0, 0);
    OneStepMore(states, steps, Await(0), mid);
    states, steps := states + [mid], steps + [Await(0)];
    OneStepMore(states, steps, Check(0), s1);
    states, steps := states + [s1], steps + [Check(0)];
    var mid', s2 := FallsAsleep(s1, 1);
    OneStepMore(states, steps, Await(1), mid');
    states, steps := states + [mid'], steps + [Await(1)];
    OneStepMore(states, steps, Check(1), s2);
    states, steps := states + [s2], steps + [Check(1)];
    var s3 := LastRelease(s2);
    OneStepMore(states, steps, ReleaseMap(0, 0), s3);
    states, steps := states + [s3], steps + [ReleaseMap(0, 0)];
  }

  lemma RunLength(states: seq<State>, steps: seq<Step>)
    requires Run(states, steps)
    ensures |states| == |steps| + 1
  {
  }

  lemma LastRelease(s: State) returns (s': State)
    requires s.next == Some(2) && s.res == map[1 := 1] && s.held == [1]
    requires s.awaiters == [Sleeping(false), Sleeping(false)]
    ensures Moves(s, ReleaseMap(0, 0), s') && Oversleeps(s', 1) && s'.held == []
  {
    assert Asleep(s, 0) && Asleep(s, 1);
    assert RemoveAt([1], 0) == [];
    s' := Apply(s, ReleaseMap(0, 0));
  }

  // ---------- the object ----------

  class OsdService {
    var nextOsdmap: Option<nat>
    var mapReservations: map<nat, nat>

    method PrePublishMap(e: nat)
      modifies this
      ensures nextOsdmap == Some(e) && mapReservations == old(mapReservations)
    {
      nextOsdmap := Some(e);
    }

    method GetNextmapReserved() returns (osdmap: Option<nat>)
      modifies this
      ensures osdmap == nextOsdmap == old(nextOsdmap)
      ensures mapReservations ==
              if osdmap.None? then old(mapReservations) else Reserve(old(mapReservations), osdmap.value)
      ensures osdmap.Some? ==>
                var e := osdmap.value;
                var was := old(mapReservations);
                mapReservations == was[e := if e in was then was[e] + 1 else 1]
    {
      if nextOsdmap.None? {
        return None;
      }
      var e := nextOsdmap.value;
      if e !in mapReservations {
        mapReservations := mapReservations[e := 0];
      }
      mapReservations := mapReservations[e := mapReservations[e] + 1];
      return nextOsdmap;
    }

    method ReleaseReservation(e: nat)
      requires ReleaseSafe(mapReservations, e)
      modifies this
      ensures nextOsdmap == old(nextOsdmap) && mapReservations == Release(old(mapReservations), e)
      ensures mapReservations == if old(mapReservations)[e] == 1 then old(mapReservations) - {e}
                                 else old(mapReservations)[e := old(mapReservations)[e] - 1]
    {
      mapReservations := mapReservations[e := mapReservations[e] - 1];
      if mapReservations[e] == 0 {
        mapReservations := mapReservations - {e};
      }
    }

    /** One pass of the loop of await_reserved_maps. @return  whether to go on instead of waiting */
    method MayPass() returns (done: bool)
      requires nextOsdmap.Some?
      ensures done <==> NoneBelow(mapReservations, nextOsdmap.value)
    {
      if mapReservations.Keys == {} {
        return true;
      }
      var first := SmallestKey();
      done := first >= nextOsdmap.value;
    }

    /** map::cbegin */
    method SmallestKey() returns (first: nat)
      requires mapReservations.Keys != {}
      ensures first in mapReservations && forall x :: x in mapReservations ==> first <= x
    {
      var left := mapReservations.Keys;
      first :| first in left;
      left := left - {first};
      while left != {}
        invariant first in mapReservations && left <= mapReservations.Keys
        invariant forall x :: x in mapReservations && x !in left ==> first <= x
        decreases left
      {
        var x :| x in left;
        left := left - {x};
        if x < first {
          first := x;
        }
      }
    }
  }
}
