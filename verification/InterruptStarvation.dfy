/** A run of the protocol in which the oldest interrupt stays at the head of the queue while any
    number of requests arrive: each is preceded by an INTERRUPT of its own, which it matches. All
    requests and all INTERRUPTs have different numbers. */
module InterruptStarvation {
  import opened Prelude
  import opened InterruptRuns
  import P = InterruptProtocol

  /** Interrupt 0, for a request 0 that never comes, heads the queue; requests 1 to n came and went
      by. */
  ghost predicate PassedBy(s: P.State, n: nat) {
    && P.Inv(s) && s.se.None? && s.queued == [0]
    && (forall i :: i in s.intrs <==> 0 <= i <= n) && (forall i :: i in s.intrs ==> s.intrs[i].target == i)
    && (forall r :: r in s.reqs <==> 0 <= r < n) && (forall r :: r in s.reqs ==> s.reqs[r].unique == r + 1)
    && |s.pending| == n && (forall k :: 0 <= k < n ==> s.pending[k] == k)
  }

  ghost predicate HeadWaits(s: P.State) {
    s.queued != [] && s.queued[0] == 0
  }

  lemma IsIndexed(s: P.State)
    requires P.Inv(s)
    ensures P.Indexed(s)
  {
  }

  lemma TakeStep(s: P.State, step: P.Step) returns (s': P.State)
    requires P.Inv(s) && P.Enabled(s, step)
    ensures P.Safe(s, step) && s' == P.Apply(s, step) && P.Inv(s') && Taken(s, step, s')
  {
    P.StepKeepsInv(s, step);
    s' := P.Apply(s, step);
  }

  /** An INTERRUPT for request n + 1 arrives and looks around. */
  lemma InterruptArrives(s: P.State, n: nat) returns (s1: P.State, s2: P.State)
    requires PassedBy(s, n)
    ensures Taken(s, P.NewInterrupt(n + 1, n + 1), s1) && Taken(s1, P.IntrStep(n + 1), s2)
    ensures P.Inv(s1) && P.Inv(s2) && HeadWaits(s1)
    ensures s2 == s.(intrs := s.intrs[n + 1 := P.NewIntr(n + 1).(pc := P.Searching)], se := Some(P.Interrupter(n + 1)))
  {
    hide P.Inv; hide P.Safe; hide Taken;
    s1 := TakeStep(s, P.NewInterrupt(n + 1, n + 1));
    s2 := TakeStep(s1, P.IntrStep(n + 1));
  }

  /** It finds neither its request nor a twin, and waits behind interrupt 0. */
  lemma InterruptQueues(s: P.State, n: nat, s2: P.State) returns (s3: P.State)
    requires PassedBy(s, n) && P.Inv(s2)
    requires s2 == s.(intrs := s.intrs[n + 1 := P.NewIntr(n + 1).(pc := P.Searching)], se := Some(P.Interrupter(n + 1)))
    ensures Taken(s2, P.IntrStep(n + 1), s3) && P.Inv(s3)
    ensures s3 == s.(intrs := s.intrs[n + 1 := P.NewIntr(n + 1).(pc := P.Queued)], queued := [0, n + 1])
  {
    hide P.Inv; hide P.Safe; hide Taken;
    IsIndexed(s2);
    NobodyPending(s, n, s2);
    SearchQueues(s2, n + 1);
    s3 := TakeStep(s2, P.IntrStep(n + 1));
    assert [0] + [n + 1] == [0, n + 1];
    assert s2.intrs[n + 1 := P.NewIntr(n + 1).(pc := P.Queued)] == s.intrs[n + 1 := P.NewIntr(n + 1).(pc := P.Queued)];
  }

  lemma NobodyPending(s: P.State, n: nat, s2: P.State)
    requires PassedBy(s, n) && P.Indexed(s2)
    requires s2 == s.(intrs := s.intrs[n + 1 := P.NewIntr(n + 1).(pc := P.Searching)], se := Some(P.Interrupter(n + 1)))
    ensures P.FindPending(s2, n + 1, 0) == |s2.pending| && P.FindQueued(s2, n + 1, 0) == |s2.queued|
  {
    hide P.Inv;
    forall k | 0 <= k < n
      ensures s2.reqs[s2.pending[k]].unique != n + 1
    {
      assert s2.pending[k] == k && k in s.reqs;
    }
    assert s2.intrs[s2.queued[0]].target == 0;
  }

  lemma SearchQueues(s: P.State, i: nat)
    requires P.Indexed(s) && i in s.intrs && s.intrs[i].pc.Searching?
    requires P.FindPending(s, s.intrs[i].target, 0) == |s.pending|
    requires P.FindQueued(s, s.intrs[i].target, 0) == |s.queued|
    ensures P.IntrApply(s, i) ==
            s.(intrs := s.intrs[i := s.intrs[i].(pc := P.Queued)], queued := s.queued + [i], se := None)
  {
    hide P.FindPending; hide P.FindQueued;
  }

  /** Request n + 1 arrives and takes the session lock. */
  lemma RequestArrives(s: P.State, n: nat, s3: P.State) returns (s4: P.State, s5: P.State)
    requires PassedBy(s, n) && P.Inv(s3)
    requires s3 == s.(intrs := s.intrs[n + 1 := P.NewIntr(n + 1).(pc := P.Queued)], queued := [0, n + 1])
    ensures Taken(s3, P.NewRequest(n, n + 1), s4) && Taken(s4, P.OwnerStep(n), s5)
    ensures P.Inv(s4) && P.Inv(s5) && HeadWaits(s4)
    ensures s5 == s3.(reqs := s.reqs[n := P.NewReq(n + 1).(pc := P.Enqueuing)],
                      se := Some(P.Owner(n)))
  {
    hide P.Inv; hide P.Safe; hide Taken;
    s4 := TakeStep(s3, P.NewRequest(n, n + 1));
    s5 := TakeStep(s4, P.OwnerStep(n));
  }

  /** It matches the interrupt behind the head. */
  lemma RequestMatches(s: P.State, n: nat, s5: P.State) returns (s6: P.State)
    requires PassedBy(s, n) && P.Inv(s5)
    requires s5 == s.(intrs := s.intrs[n + 1 := P.NewIntr(n + 1).(pc := P.Queued)], queued := [0, n + 1],
                      reqs := s.reqs[n := P.NewReq(n + 1).(pc := P.Enqueuing)],
                      se := Some(P.Owner(n)))
    ensures Taken(s5, P.OwnerStep(n), s6) && PassedBy(s6, n + 1)
  {
    hide P.Inv; hide P.Safe; hide Taken;
    IsIndexed(s5);
    assert s5.intrs[0] == s.intrs[0] && s5.queued[0] == 0 && s5.queued[1] == n + 1;
    SecondIsFound(s5, n + 1);
    EnqueueMatches(s5, n, 1);
    s6 := TakeStep(s5, P.OwnerStep(n));
    assert RemoveAt([0, n + 1], 1) == [0];
  }

  lemma SecondIsFound(s: P.State, target: nat)
    requires P.Indexed(s) && |s.queued| == 2
    requires s.intrs[s.queued[0]].target != target && s.intrs[s.queued[1]].target == target
    ensures P.FindQueued(s, target, 0) == 1
  {
  }

  lemma EnqueueMatches(s: P.State, r: nat, k: nat)
    requires P.Indexed(s) && r in s.reqs && s.reqs[r].pc.Enqueuing?
    requires k < |s.queued| && P.FindQueued(s, s.reqs[r].unique, 0) == k
    ensures P.OwnerApply(s, r) ==
            s.(pending := s.pending + [r], se := None, queued := RemoveAt(s.queued, k),
               reqs := s.reqs[r := s.reqs[r].(linked := true, interrupted := true, pc := P.Idle)],
               intrs := s.intrs[s.queued[k] := P.Dispose(s.intrs[s.queued[k]]).(mark := Some(P.Mark(r, 0, None)))])
  {
    hide P.FindQueued;
  }

  /** The states that the steps lead through from s on. */
  ghost predicate Continues(s: P.State, more: seq<P.State>, steps: seq<P.Step>) {
    && |more| == |steps|
    && (more != [] ==> Taken(s, steps[0], more[0]))
    && forall k :: 0 < k < |more| ==> Taken(more[k - 1], steps[k], more[k])
  }

  function Round(n: nat): seq<P.Step> {
    [P.NewInterrupt(n + 1, n + 1), P.IntrStep(n + 1), P.IntrStep(n + 1),
     P.NewRequest(n, n + 1), P.OwnerStep(n), P.OwnerStep(n)]
  }

  lemma OneMoreRequest(s: P.State, n: nat) returns (more: seq<P.State>)
    requires PassedBy(s, n)
    ensures |more| == |Round(n)| == 6 && PassedBy(more[5], n + 1) && |more[5].pending| == n + 1
    ensures Continues(s, more, Round(n)) && forall k :: 0 <= k < 6 ==> HeadWaits(more[k])
  {
    hide P.Inv; hide Taken;
    var s1, s2 := InterruptArrives(s, n);
    var s3 := InterruptQueues(s, n, s2);
    var s4, s5 := RequestArrives(s, n, s3);
    var s6 := RequestMatches(s, n, s5);
    more := [s1, s2, s3, s4, s5, s6];
    assert HeadWaits(s6);
  }

  /** Interrupt 0 arrives and is queued. */
  lemma FirstInterrupt() returns (run: seq<P.State>, steps: seq<P.Step>)
    ensures Trace(run, steps) && |steps| == 3 && |run| == 4 && run[0] == P.START && PassedBy(run[3], 0)
    ensures HeadWaits(run[3]) && run[3].pending == []
  {
    hide P.Inv; hide P.Safe; hide Taken;
    var s0 := P.START;
    P.RunKeepsInv([s0], 0);
    var s1 := TakeStep(s0, P.NewInterrupt(0, 0));
    var s2 := TakeStep(s1, P.IntrStep(0));
    assert s2 == s0.(intrs := map[0 := P.NewIntr(0).(pc := P.Searching)], se := Some(P.Interrupter(0)));
    SearchQueues(s2, 0);
    var s3 := TakeStep(s2, P.IntrStep(0));
    run, steps := [s0, s1, s2, s3], [P.NewInterrupt(0, 0), P.IntrStep(0), P.IntrStep(0)];
    assert [] + [0] == [0];
  }

  lemma Longer(run: seq<P.State>, steps: seq<P.Step>, more: seq<P.State>, moreSteps: seq<P.Step>)
    requires Trace(run, steps) && |more| == |moreSteps|
    requires Continues(run[|steps|], more, moreSteps)
    ensures Trace(run + more, steps + moreSteps)
  {
    hide Taken;
    var all, allSteps := run + more, steps + moreSteps;
    forall k | 0 <= k < |allSteps|
      ensures Taken(all[k], allSteps[k], all[k + 1])
    {
      if k < |steps| {
        assert Taken(run[k], steps[k], run[k + 1]);
      } else {
        var j := k - |steps|;
        assert j > 0 ==> Taken(more[j - 1], moreSteps[j], more[j]);
      }
    }
  }

  /** From the start of the protocol: once queued, at the end of the third step, the interrupt is the
      head of the queue in every state, while n requests with different numbers arrive. */
  lemma {:induction false} HeadStarves(n: nat) returns (run: seq<P.State>, steps: seq<P.Step>)
    ensures Trace(run, steps) && run[0] == P.START && |steps| == 3 + 6 * n && |run| == 4 + 6 * n
    ensures run[3].pending == [] && |run[|steps|].pending| == n
    ensures forall k :: 3 <= k < |run| ==> HeadWaits(run[k])
    ensures PassedBy(run[|steps|], n) && P.IsRun(run)
    decreases n
  {
    hide Trace; hide Continues; hide PassedBy; hide Round;
    if n == 0 {
      run, steps := FirstInterrupt();
    } else {
      var before, beforeSteps := HeadStarves(n - 1);
      var more := OneMoreRequest(before[|beforeSteps|], n - 1);
      Longer(before, beforeSteps, more, Round(n - 1));
      run, steps := before + more, beforeSteps + Round(n - 1);
    }
    TraceIsRun(run, steps);
  }
}
