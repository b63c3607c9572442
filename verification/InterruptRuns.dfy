/** The queue of unmatched interrupts along runs of the concurrent protocol: which arrivals and
    INTERRUPTs a run amounts to, and when a queued interrupt is dealt with. */
module InterruptRuns {
  import opened Prelude
  import opened InterruptQueue
  import P = InterruptProtocol

  /** A stretch of a run: a reachable state and the steps taken from it. */
  ghost predicate Trace(run: seq<P.State>, steps: seq<P.Step>) {
    && |run| == |steps| + 1 && P.Inv(run[0])
    && forall k :: 0 <= k < |steps| ==> Taken(run[k], steps[k], run[k + 1])
  }

  ghost predicate Taken(s: P.State, step: P.Step, s': P.State) {
    P.Enabled(s, step) && (P.Safe(s, step) ==> s' == P.Apply(s, step))
  }

  ghost predicate Pending(s: P.State, unique: nat)
    requires P.Indexed(s)
  {
    exists r :: r in s.pending && s.reqs[r].unique == unique
  }

  /** What a step means for the queue: a request arrives, an INTERRUPT is looked up (and its
      target found pending or not), or nothing. */
  ghost function EventOf(s: P.State, step: P.Step): Option<(Event, bool)>
    requires P.Indexed(s) && P.Enabled(s, step)
  {
    match step
    case OwnerStep(r) => if s.reqs[r].pc.Enqueuing? then Some((Request(s.reqs[r].unique), false)) else None
    case IntrStep(i) =>
      if s.intrs[i].pc.Searching? then Some((Interrupt(s.intrs[i].target), Pending(s, s.intrs[i].target))) else None
    case _ => None
  }

  /** What a step does to the queue itself. */
  lemma StepTracks(s: P.State, step: P.Step, s': P.State)
    requires P.Inv(s) && Taken(s, step, s')
    ensures P.Inv(s') && P.Indexed(s) && P.Indexed(s')
    ensures match EventOf(s, step)
            case None => s'.queued == s.queued && Targets(s') == Targets(s)
            case Some(e) =>
              && Targets(s') == Step(Targets(s), e.0, e.1)
              && match e.0
                 case Request(u) =>
                   s'.queued == if s.queued == [] then [] else RemoveAt(s.queued, Retired(Targets(s), u))
                 case Interrupt(_) => s.queued <= s'.queued
  {
    hide P.Inv; hide P.OwnerApply; hide P.IntrApply; hide Pending;
    TakenKeepsInv(s, step, s');
    InvIsIndexed(s);
    InvIsIndexed(s');
    match step
    case OwnerStep(r) => OwnerTracks(s, r, s');
    case IntrStep(i) => IntrTracks(s, i, s');
    case _ => SameTargets(s, s');
  }

  lemma OwnerTracks(s: P.State, r: nat, s': P.State)
    requires P.Indexed(s) && P.Indexed(s') && NoDuplicates(s.queued) && r in s.reqs && s' == P.OwnerApply(s, r)
    ensures if s.reqs[r].pc.Enqueuing? then
              var u := s.reqs[r].unique;
              && Targets(s') == Arrive(Targets(s), u)
              && s'.queued == if s.queued == [] then [] else RemoveAt(s.queued, Retired(Targets(s), u))
            else s'.queued == s.queued && Targets(s') == Targets(s)
  {
    hide P.Enqueue; hide P.FindQueued;
    if s.reqs[r].pc.Enqueuing? {
      EnqueueIsArrival(s, r, s', s.reqs[r].unique);
      FindQueuedIsIndexOf(s, s.reqs[r].unique);
      P.EnqueueTakesOne(s, r, s');
    } else {
      P.OwnerLeavesQueue(s, r, s');
      SameTargets(s, s');
    }
  }

  lemma IntrTracks(s: P.State, i: nat, s': P.State)
    requires P.Indexed(s) && P.Indexed(s') && P.References(s) && i in s.intrs && P.IntrEnabled(s, i)
    requires i in s.queued ==> s.intrs[i].pc.Queued?
    requires s' == P.IntrApply(s, i)
    ensures s.queued <= s'.queued
    ensures if s.intrs[i].pc.Searching? then
              var t := s.intrs[i].target;
              Targets(s') == Step(Targets(s), Interrupt(t), Pending(s, t))
            else s'.queued == s.queued && Targets(s') == Targets(s)
  {
    hide P.IntrApply; hide P.Found; hide P.IntrWrites;
    P.IntrQueues(s, i, s');
    if s.intrs[i].pc.Searching? {
      SearchIsInterrupt(s, i);
    } else {
      P.IntrChangesItself(s, i, s');
      OnlySearchersQueue(s, i, s');
      SameTargets(s, s');
    }
  }

  lemma OnlySearchersQueue(s: P.State, i: nat, s': P.State)
    requires P.Indexed(s) && P.References(s) && i in s.intrs && P.IntrEnabled(s, i)
    requires s' == P.IntrApply(s, i) && !s.intrs[i].pc.Searching?
    ensures s'.queued == s.queued
  {
    hide P.IntrWrites;
  }

  lemma SameTargets(s: P.State, s': P.State)
    requires P.Indexed(s) && P.Indexed(s') && s'.queued == s.queued
    requires forall i :: i in s.queued ==> s'.intrs[i].target == s.intrs[i].target
    ensures Targets(s') == Targets(s)
  {
  }

  // ---------- when a queued interrupt is dealt with ----------

  ghost function Events(run: seq<P.State>, steps: seq<P.Step>): (es: seq<(Event, bool)>)
    requires |run| == |steps| + 1 && AllEnabled(run, steps)
  {
    if steps == [] then []
    else
      AllEnabledRest(run, steps);
      var rest := Events(run[1..], steps[1..]);
      match EventOf(run[0], steps[0])
      case None => rest
      case Some(e) => [e] + rest
  }

  function Firsts(es: seq<(Event, bool)>): (s: seq<Event>)
    ensures |s| == |es|
  {
    seq(|es|, k requires 0 <= k < |es| => es[k].0)
  }

  function Seconds(es: seq<(Event, bool)>): (s: seq<bool>)
    ensures |s| == |es|
  {
    seq(|es|, k requires 0 <= k < |es| => es[k].1)
  }

  lemma FirstEvent(e: (Event, bool), rest: seq<(Event, bool)>)
    ensures Firsts([e] + rest)[0] == e.0 && Firsts([e] + rest)[1..] == Firsts(rest)
    ensures Seconds([e] + rest)[0] == e.1 && Seconds([e] + rest)[1..] == Seconds(rest)
  {
  }

  lemma TraceIsGood(run: seq<P.State>, steps: seq<P.Step>, k: nat)
    requires Trace(run, steps) && k < |run|
    ensures P.Inv(run[k]) && P.Indexed(run[k])
    ensures k < |steps| ==> P.Enabled(run[k], steps[k])
  {
    hide P.Inv; hide Taken; hide P.Enabled;
    if k > 0 {
      TraceIsGood(run, steps, k - 1);
      assert Taken(run[k - 1], steps[k - 1], run[k]);
      TakenKeepsInv(run[k - 1], steps[k - 1], run[k]);
    }
    InvIsIndexed(run[k]);
    if k < |steps| {
      assert Taken(run[k], steps[k], run[k + 1]);
      TakenIsEnabled(run[k], steps[k], run[k + 1]);
    }
  }

  lemma TakenKeepsInv(s: P.State, step: P.Step, s': P.State)
    requires P.Inv(s) && Taken(s, step, s')
    ensures P.Inv(s') && P.Enabled(s, step) && P.Safe(s, step) && s' == P.Apply(s, step)
  {
    hide P.Inv; hide P.Enabled; hide P.Safe;
    TakenIsEnabled(s, step, s');
    P.StepKeepsInv(s, step);
  }

  lemma TakenIsEnabled(s: P.State, step: P.Step, s': P.State)
    requires Taken(s, step, s')
    ensures P.Enabled(s, step) && (P.Safe(s, step) ==> s' == P.Apply(s, step))
  {
  }

  lemma InvIsIndexed(s: P.State)
    requires P.Inv(s)
    ensures P.Indexed(s) && NoDuplicates(s.queued) && P.References(s)
    ensures forall i :: i in s.queued <==> i in s.intrs && s.intrs[i].pc.Queued?
  {
  }

  lemma TraceRest(run: seq<P.State>, steps: seq<P.Step>)
    requires Trace(run, steps) && steps != []
    ensures Trace(run[1..], steps[1..]) && Taken(run[0], steps[0], run[1]) && P.Inv(run[0])
  {
    TraceIsGood(run, steps, 1);
    assert Taken(run[0], steps[0], run[1]);
    forall k | 0 <= k < |steps| - 1
      ensures Taken(run[1..][k], steps[1..][k], run[1..][k + 1])
    {
      assert Taken(run[k + 1], steps[k + 1], run[k + 2]);
    }
  }

  lemma TraceFront(run: seq<P.State>, steps: seq<P.Step>)
    requires Trace(run, steps) && steps != []
    ensures Trace(run[..|steps|], steps[..|steps| - 1]) && run[..|steps|][|steps| - 1] == run[|steps| - 1]
  {
    hide P.Inv; hide Taken;
    forall k | 0 <= k < |steps| - 1
      ensures Taken(run[..|steps|][k], steps[..|steps| - 1][k], run[..|steps|][k + 1])
    {
      assert Taken(run[k], steps[k], run[k + 1]);
    }
  }

  lemma TraceIsRun(run: seq<P.State>, steps: seq<P.Step>)
    requires Trace(run, steps) && run[0] == P.START
    ensures P.IsRun(run)
  {
    hide P.Inv; hide P.Safe;
    forall k | 0 < k < |run|
      ensures P.Moves(run[k - 1], run[k])
    {
      assert Taken(run[k - 1], steps[k - 1], run[k - 1 + 1]);
    }
  }

  /** An interrupt that has left the queue has been answered or is about to be. */
  ghost predicate DealtWith(s: P.State, i: nat) {
    i in s.intrs && (s.intrs[i].pc.Evicted? || s.intrs[i].pc.Disposed?)
  }

  lemma StepKeepsDealtWith(s: P.State, step: P.Step, s': P.State, i: nat)
    requires P.Inv(s) && Taken(s, step, s') && DealtWith(s, i)
    ensures DealtWith(s', i)
  {
    hide P.Inv; hide P.OwnerApply; hide P.IntrApply; hide P.Found; hide P.IntrWrites;
    TakenKeepsInv(s, step, s');
    InvIsIndexed(s);
    match step
    case OwnerStep(r) => OwnerLeavesDealtWith(s, r, s', i);
    case IntrStep(j) => IntrLeavesDealtWith(s, j, s', i);
    case _ =>
  }

  lemma OwnerLeavesDealtWith(s: P.State, r: nat, s': P.State, i: nat)
    requires P.Indexed(s) && NoDuplicates(s.queued) && r in s.reqs && s' == P.OwnerApply(s, r)
    requires DealtWith(s, i) && i !in s.queued
    ensures DealtWith(s', i)
  {
    hide P.Enqueue; hide P.FindQueued;
    if s.reqs[r].pc.Enqueuing? {
      P.EnqueueTakesOne(s, r, s');
    } else {
      P.OwnerLeavesQueue(s, r, s');
    }
  }

  lemma IntrLeavesDealtWith(s: P.State, j: nat, s': P.State, i: nat)
    requires P.Indexed(s) && P.References(s) && j in s.intrs && P.IntrEnabled(s, j) && s' == P.IntrApply(s, j)
    requires DealtWith(s, i)
    ensures DealtWith(s', i)
  {
    hide P.IntrWrites; hide P.FindPending; hide P.FindQueued;
    P.IntrChangesItself(s, j, s');
  }

  lemma {:induction false} DealtWithForGood(run: seq<P.State>, steps: seq<P.Step>, i: nat)
    requires Trace(run, steps) && DealtWith(run[0], i)
    ensures i !in run[|steps|].queued
    decreases |steps|
  {
    TraceIsGood(run, steps, |steps|);
    if steps != [] {
      TraceRest(run, steps);
      StepKeepsDealtWith(run[0], steps[0], run[1], i);
      DealtWithForGood(run[1..], steps[1..], i);
    }
  }

  /** The interrupt taken off the queue is dealt with. */
  lemma RetiredIsDealtWith(s: P.State, r: nat, s': P.State)
    requires P.Inv(s) && Taken(s, P.OwnerStep(r), s') && s.reqs[r].pc.Enqueuing? && s.queued != []
    ensures DealtWith(s', s.queued[Retired(Targets(s), s.reqs[r].unique)])
  {
    hide P.Inv; hide P.Enqueue; hide P.FindQueued;
    TakenKeepsInv(s, P.OwnerStep(r), s');
    InvIsIndexed(s);
    FindQueuedIsIndexOf(s, s.reqs[r].unique);
    P.EnqueueTakesOne(s, r, s');
  }

  /** One arrival: q are the targets of the queue, ids its members, last the queue in the end. */
  lemma ArrivalRetires(q: seq<nat>, p: nat, e: (Event, bool), rest: seq<(Event, bool)>, ids: seq<nat>, last: seq<nat>)
    requires p < |q| == |ids| && e.0.Request?
    requires Retired(q, e.0.unique) == p ==> ids[p] !in last
    requires var at := Retired(q, e.0.unique);
             at != p ==>
               var p' := if at < p then p - 1 else p;
               (ids[p] !in last <==> IsRetired(Arrive(q, e.0.unique), p', Firsts(rest), Seconds(rest)))
    ensures ids[p] !in last <==> IsRetired(q, p, Firsts([e] + rest), Seconds([e] + rest))
  {
    hide Retired; hide IndexOf;
    FirstEvent(e, rest);
  }

  lemma InterruptRetiresNone(q: seq<nat>, p: nat, e: (Event, bool), rest: seq<(Event, bool)>)
    requires p < |q| && e.0.Interrupt? && p < |Step(q, e.0, e.1)|
    ensures IsRetired(q, p, Firsts([e] + rest), Seconds([e] + rest)) <==>
            IsRetired(Step(q, e.0, e.1), p, Firsts(rest), Seconds(rest))
  {
    FirstEvent(e, rest);
  }

  ghost predicate AllEnabled(run: seq<P.State>, steps: seq<P.Step>)
    requires |run| == |steps| + 1
  {
    forall k :: 0 <= k < |steps| ==> P.Indexed(run[k]) && P.Enabled(run[k], steps[k])
  }

  lemma AllEnabledRest(run: seq<P.State>, steps: seq<P.Step>)
    requires |run| == |steps| + 1 && steps != [] && AllEnabled(run, steps)
    ensures AllEnabled(run[1..], steps[1..]) && P.Indexed(run[0]) && P.Enabled(run[0], steps[0])
  {
    forall k | 0 <= k < |steps[1..]|
      ensures P.Indexed(run[1..][k]) && P.Enabled(run[1..][k], steps[1..][k])
    {
      assert P.Indexed(run[k + 1]) && P.Enabled(run[k + 1], steps[k + 1]);
    }
  }

  lemma TraceIsEnabled(run: seq<P.State>, steps: seq<P.Step>)
    requires Trace(run, steps)
    ensures |run| == |steps| + 1 && AllEnabled(run, steps) && P.Indexed(run[0])
  {
    TraceIsGood(run, steps, 0);
    forall k | 0 <= k < |steps|
      ensures P.Indexed(run[k]) && P.Enabled(run[k], steps[k])
    {
      TraceIsGood(run, steps, k);
    }
  }

  lemma EventsUnfold(run: seq<P.State>, steps: seq<P.Step>)
    requires |run| == |steps| + 1 && steps != [] && AllEnabled(run, steps)
    ensures AllEnabled(run[1..], steps[1..]) && P.Indexed(run[0]) && P.Enabled(run[0], steps[0])
    ensures Events(run, steps) ==
            match EventOf(run[0], steps[0])
            case None => Events(run[1..], steps[1..])
            case Some(e) => [e] + Events(run[1..], steps[1..])
  {
    hide EventOf;
    AllEnabledRest(run, steps);
  }

  /** Along every run the interrupt queued at position p is gone from the queue exactly when the
      run's events retire it. */
  lemma {:induction false} GoneIffRetired(run: seq<P.State>, steps: seq<P.Step>, p: nat)
    requires Trace(run, steps) && p < |run[0].queued|
    ensures AllEnabled(run, steps) && P.Indexed(run[0])
    ensures var es := Events(run, steps);
            run[0].queued[p] !in run[|steps|].queued <==> IsRetired(Targets(run[0]), p, Firsts(es), Seconds(es))
    decreases |steps|
  {
    hide Retired; hide EventOf; hide P.Inv; hide Taken; hide Events;
    hide IsRetired; hide AllEnabled; hide P.Enabled; hide Targets; hide Trace; hide P.Indexed;
    TraceIsEnabled(run, steps);
    if steps == [] {
      NoEvents(run, p);
    } else {
      var s, s' := run[0], run[1];
      EventsUnfold(run, steps);
      TraceRest(run, steps);
      StepTracks(s, steps[0], s');
      var rest := Events(run[1..], steps[1..]);
      match EventOf(s, steps[0])
      case None => GoneIffRetired(run[1..], steps[1..], p);
      case Some(e) =>
        if e.0.Interrupt? {
          GoneIffRetired(run[1..], steps[1..], p);
          InterruptRetiresNone(Targets(s), p, e, rest);
        } else {
          ArrivalMeansEnqueue(s, steps[0], e);
          var at := Retired(Targets(s), e.0.unique);
          if at == p {
            RetiredIsDealtWith(s, steps[0].r, s');
            DealtWithForGood(run[1..], steps[1..], s.queued[p]);
          } else {
            GoneIffRetired(run[1..], steps[1..], if at < p then p - 1 else p);
          }
          ArrivalRetires(Targets(s), p, e, rest, s.queued, run[|steps|].queued);
        }
    }
  }

  lemma NoEvents(run: seq<P.State>, p: nat)
    requires |run| == 1 && P.Indexed(run[0]) && p < |run[0].queued| && AllEnabled(run, [])
    ensures !IsRetired(Targets(run[0]), p, Firsts(Events(run, [])), Seconds(Events(run, [])))
  {
  }

  lemma ArrivalMeansEnqueue(s: P.State, step: P.Step, e: (Event, bool))
    requires P.Indexed(s) && P.Enabled(s, step) && EventOf(s, step) == Some(e) && e.0.Request?
    ensures step.OwnerStep? && s.reqs[step.r].pc.Enqueuing? && s.reqs[step.r].unique == e.0.unique
  {
  }

  /** In every run of the protocol that takes in p + 1 requests, the interrupt queued at position p
      has been matched or answered in the end exactly when one of them was the request it aims at, or
      none of them was for an interrupt queued behind it. */
  lemma DealtWithInTimeIff(run: seq<P.State>, steps: seq<P.Step>, p: nat)
    requires Trace(run, steps) && p < |run[0].queued|
    requires AllEnabled(run, steps) && CountRequests(Firsts(Events(run, steps))) == p + 1
    ensures P.Indexed(run[0])
    ensures var es, q := Events(run, steps), Targets(run[0]);
            run[0].queued[p] !in run[|steps|].queued <==>
            IsMatched(q, p, Firsts(es), Seconds(es)) || NoneBehindMatched(q, p, Firsts(es), Seconds(es))
  {
    GoneIffRetired(run, steps, p);
    var es := Events(run, steps);
    RetiredInTimeIff(Targets(run[0]), p, Firsts(es), Seconds(es));
  }
}
