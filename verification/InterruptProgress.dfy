/** How many steps the owners of requests and the processors of INTERRUPTs take in a run: as many as
    the arrivals and choices of the run ask for, and no more. As somebody can move whenever anybody is
    busy (SomeoneCanMove), everybody is at rest in the end. */
module InterruptProgress {
  import opened Prelude
  import opened InterruptProtocol
  import R = InterruptRuns

  /** The steps that an owner has before it until it is at rest. */
  function OwnerSteps(pc: OwnerPc): nat {
    match pc
    case Arriving => 2
    case Enqueuing => 1
    case Idle => 0
    case RegWantReq(_) => 4
    case RegWantSe(_) => 3
    case RegSetting(_) => 2
    case RegCheck(_) => 1
    case FreeWantSe => 3
    case FreeLocked => 2
    case FreeDecide(_) => 1
    case Done => 0
  }

  /** The steps that an INTERRUPT has before it at most. */
  function IntrSteps(pc: IntrPc): nat {
    match pc
    case Received => 8
    case Searching => 7
    case WantReqLock(_) => 6
    case WantSe(_) => 5
    case Marking(_) => 4
    case Calling(_, _) => 3
    case WantSeDrop(_) => 2
    case Dropping(_) => 1
    case Queued => 1
    case Evicted => 1
    case Disposed => 0
  }

  function OwnerLeft(s: State, r: nat): nat {
    if r in s.reqs then OwnerSteps(s.reqs[r].pc) else 0
  }

  function IntrLeft(s: State, i: nat): nat {
    if i in s.intrs then IntrSteps(s.intrs[i].pc) else 8
  }

  /** How many steps of the owner of r a step asks for. */
  function Asks(step: Step, r: nat): nat {
    match step
    case NewRequest(t, _) => if t == r then 2 else 0
    case Register(t, _) => if t == r then 4 else 0
    case Reply(t) => if t == r then 3 else 0
    case Reject(t) => if t == r then 1 else 0
    case _ => 0
  }

  lemma OwnerAdvances(q: Req, r: nat, matched: bool)
    requires !q.pc.Idle? && !q.pc.Done?
    ensures OwnerSteps(OwnerWrites(q, r, matched).pc) == OwnerSteps(q.pc) - 1
  {
  }

  lemma StepAdvancesOwner(s: State, step: Step, r: nat)
    requires Inv(s) && Enabled(s, step) && Safe(s, step)
    ensures OwnerLeft(Apply(s, step), r) == OwnerLeft(s, r) + Asks(step, r) - if step == OwnerStep(r) then 1 else 0
  {
    hide Inv; hide OwnerApply; hide IntrApply; hide OwnerWrites; hide FindQueued; hide IntrWrites; hide Found;
    R.InvIsIndexed(s);
    match step
    case OwnerStep(t) =>
      OwnerChangesItself(s, t, Apply(s, step));
      OwnerAdvances(s.reqs[t], t, s.reqs[t].pc.Enqueuing? && FindQueued(s, s.reqs[t].unique, 0) < |s.queued|);
    case IntrStep(i) =>
      IntrChangesItself(s, i, Apply(s, step));
      if r in s.reqs {
        IntrLeavesOwners(s, i, r, Apply(s, step));
      }
    case _ =>
  }

  lemma IntrAdvances(s: State, i: nat, s': State)
    requires References(s) && Indexed(s) && i in s.intrs && IntrEnabled(s, i) && s' == IntrApply(s, i)
    ensures i in s'.intrs && IntrSteps(s'.intrs[i].pc) < IntrSteps(s.intrs[i].pc)
  {
    hide FindQueued; hide FindPending; hide IntrWrites;
  }

  lemma OwnerOnlyDequeues(s: State, r: nat, s': State, i: nat)
    requires r in s.reqs && (forall j :: j in s.queued ==> j in s.intrs && s.intrs[j].pc.Queued?)
    requires s' == OwnerApply(s, r)
    ensures IntrLeft(s', i) <= IntrLeft(s, i)
  {
    hide FindQueued; hide Enqueue;
    if s.reqs[r].pc.Enqueuing? {
      EnqueueTakesOne(s, r, s');
    } else {
      OwnerLeavesQueue(s, r, s');
    }
  }

  lemma StepAdvancesIntr(s: State, step: Step, i: nat)
    requires Inv(s) && Enabled(s, step) && Safe(s, step)
    ensures IntrLeft(Apply(s, step), i) + (if step == IntrStep(i) then 1 else 0) <= IntrLeft(s, i)
  {
    hide Inv; hide OwnerApply; hide IntrApply; hide IntrWrites; hide Found; hide IntrSteps; hide IntrEnabled;
    R.InvIsIndexed(s);
    match step
    case NewInterrupt(j, target) => NewcomerHasEight(target);
    case OwnerStep(r) => OwnerOnlyDequeues(s, r, Apply(s, step), i);
    case IntrStep(j) =>
      IntrChangesItself(s, j, Apply(s, step));
      IntrAdvances(s, j, Apply(s, step));
    case _ =>
  }

  lemma NewcomerHasEight(target: nat)
    ensures IntrSteps(NewIntr(target).pc) == 8
  {
  }

  // ---------- whole runs ----------

  function Asked(steps: seq<Step>, r: nat): nat {
    if steps == [] then 0 else Asked(steps[..|steps| - 1], r) + Asks(steps[|steps| - 1], r)
  }

  function Times(steps: seq<Step>, step: Step): nat {
    if steps == [] then 0
    else Times(steps[..|steps| - 1], step) + if steps[|steps| - 1] == step then 1 else 0
  }

  /** In every run from the start the owner of r has taken exactly the steps that the request's arrival
      (two), its registrations (four each), its rejection (one more) and its reply (three) ask for, but
      for those still before it; and an INTERRUPT takes eight steps at most. */
  lemma {:induction false} StepsAreCounted(run: seq<State>, steps: seq<Step>, r: nat, i: nat)
    requires R.Trace(run, steps) && run[0] == START
    ensures Times(steps, OwnerStep(r)) + OwnerLeft(run[|steps|], r) == Asked(steps, r)
    ensures Times(steps, IntrStep(i)) + IntrLeft(run[|steps|], i) <= 8
    decreases |steps|
  {
    hide Inv; hide Enabled; hide Safe; hide Apply; hide Asks; hide OwnerSteps; hide IntrSteps;
    if steps != [] {
      var n := |steps| - 1;
      R.TraceFront(run, steps);
      StepsAreCounted(run[..n + 1], steps[..n], r, i);
      R.TraceIsGood(run, steps, n);
      assert R.Taken(run[n], steps[n], run[n + 1]);
      R.TakenKeepsInv(run[n], steps[n], run[n + 1]);
      StepAdvancesOwner(run[n], steps[n], r);
      StepAdvancesIntr(run[n], steps[n], i);
    }
  }

  /** Nothing but the protocol itself holds anybody up: new requests and INTERRUPTs arrive at any time;
      an owner that has its request in hand may register any callback, or reply; one whose request has
      just arrived may reject it. */
  lemma ArrivalsAndChoicesAreFree(s: State, k: nat, n: nat, f: Option<nat>)
    ensures k !in s.reqs ==> Enabled(s, NewRequest(k, n))
    ensures k !in s.intrs ==> Enabled(s, NewInterrupt(k, n))
    ensures k in s.reqs && s.reqs[k].pc == Idle ==> Enabled(s, Register(k, f)) && Enabled(s, Reply(k))
    ensures k in s.reqs && s.reqs[k].pc == Arriving ==> Enabled(s, Reject(k))
    ensures s.se.None? ==>
              && (k in s.reqs && s.reqs[k].pc == Arriving ==> Enabled(s, OwnerStep(k)))
              && (k in s.intrs && (s.intrs[k].pc == Received || s.intrs[k].pc == Evicted) ==> Enabled(s, IntrStep(k)))
  {
  }
}
