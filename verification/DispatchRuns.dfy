/** The dispatch queue along whole runs: what was queued, what the thread took and what was
    discarded always balance, and what becomes of a message once it is taken. */
module DispatchRuns {
  import opened Prelude
  import opened DispatchQueue
  import opened DispatchAccounts

  /** The entries a step puts into the queue. */
  function Queues(s: State, step: Step): multiset<Entry> {
    match step
    case Enqueue(m, cls, _) => multiset{Entry(cls, MsgItem(m))}
    case QueueCode(code, con) => if s.sh.stop then multiset{} else multiset{Entry(0, CodeItem(code, con))}
    case _ => multiset{}
  }

  /** The entries of class id. */
  function Class(q: seq<Entry>, id: nat): multiset<Entry> {
    if q == [] then multiset{}
    else Class(q[..|q| - 1], id) + if q[|q| - 1].cls == id then multiset{q[|q| - 1]} else multiset{}
  }

  /** The entries a step takes out of the queue. */
  function Removes(s: State, step: Step): multiset<Entry> {
    match step
    case Take(k) => if k < |s.sh.mqueue| then multiset{s.sh.mqueue[k]} else multiset{}
    case Discard(id) => Class(s.sh.mqueue, id)
    case _ => multiset{}
  }

  lemma {:induction false} ClassAppended(q: seq<Entry>, p: seq<Entry>, id: nat)
    ensures Class(q + p, id) == Class(q, id) + Class(p, id)
    decreases |p|
  {
    if p == [] {
      assert q + p == q;
    } else {
      var front, last := p[..|p| - 1], p[|p| - 1];
      assert (q + p)[..|q + p| - 1] == q + front;
      ClassAppended(q, front, id);
    }
  }

  /** Discarding a class removes its entries and no others. */
  lemma {:induction false} ClassLeaves(q: seq<Entry>, id: nat)
    ensures multiset(NotOfClass(q, id)) + Class(q, id) == multiset(q)
  {
    if q != [] {
      ClassLeaves(q[1..], id);
      assert q == [q[0]] + q[1..];
      ClassAppended([q[0]], q[1..], id);
      ClassOfOne(q[0], id);
    }
  }

  lemma ClassOfOne(e: Entry, id: nat)
    ensures Class([e], id) == if e.cls == id then multiset{e} else multiset{}
  {
    assert [e][..0] == [];
  }

  lemma OneRemoved(q: seq<Entry>, k: nat)
    requires k < |q|
    ensures multiset(RemoveAt(q, k)) + multiset{q[k]} == multiset(q)
  {
    assert q == q[..k] + [q[k]] + q[k + 1..];
  }

  /** What a step does to the queue itself. */
  lemma StepQueue(s: State, step: Step, s': State)
    requires Inv(s) && Moves(s, step, s')
    ensures Enabled(s, step)
    ensures s'.sh.mqueue ==
            match step
            case Enqueue(m, cls, _) => s.sh.mqueue + [Entry(cls, MsgItem(m))]
            case QueueCode(code, con) => s.sh.mqueue + if s.sh.stop then [] else [Entry(0, CodeItem(code, con))]
            case Take(k) => RemoveAt(s.sh.mqueue, k)
            case Discard(id) => NotOfClass(s.sh.mqueue, id)
            case _ => s.sh.mqueue
  {
    hide Inv; hide NotOfClass; hide OfClass; hide RemoveArrivals; hide RemovalSafe;
    EveryStepIsSafe(s, step);
    if step.Discard? {
      InvShared(s);
      DiscardMirrors(s.sh, step.id);
    }
  }

  lemma StepBalances(s: State, step: Step, s': State)
    requires Inv(s) && Moves(s, step, s')
    ensures multiset(s'.sh.mqueue) + Removes(s, step) == multiset(s.sh.mqueue) + Queues(s, step)
  {
    hide Inv; hide Moves; hide Class; hide NotOfClass;
    StepQueue(s, step, s');
    match step
    case Take(k) => OneRemoved(s.sh.mqueue, k);
    case Discard(id) => ClassLeaves(s.sh.mqueue, id);
    case _ =>
  }

  lemma InvShared(s: State)
    requires Inv(s)
    ensures SharedOk(s.sh)
  {
  }

  function AllQueued(states: seq<State>, steps: seq<Step>): multiset<Entry>
    requires |states| == |steps| + 1
  {
    if steps == [] then multiset{}
    else
      var last := |steps| - 1;
      AllQueued(states[..|steps|], steps[..last]) + Queues(states[last], steps[last])
  }

  function AllRemoved(states: seq<State>, steps: seq<Step>): multiset<Entry>
    requires |states| == |steps| + 1
  {
    if steps == [] then multiset{}
    else
      var last := |steps| - 1;
      AllRemoved(states[..|steps|], steps[..last]) + Removes(states[last], steps[last])
  }

  lemma BalancesAddUp(q: multiset<Entry>, gone: multiset<Entry>, come: multiset<Entry>,
                      q': multiset<Entry>, removed: multiset<Entry>, queued: multiset<Entry>)
    requires q + gone == come && q' + removed == q + queued
    ensures q' + (gone + removed) == come + queued
  {
    assert q' + (gone + removed) == (q' + removed) + gone;
    assert (q + queued) + gone == (q + gone) + queued;
  }

  lemma LastOfAll(states: seq<State>, steps: seq<Step>)
    requires |states| == |steps| + 1 && steps != []
    ensures var last := |steps| - 1;
            && AllQueued(states, steps) ==
               AllQueued(states[..|steps|], steps[..last]) + Queues(states[last], steps[last])
            && AllRemoved(states, steps) ==
               AllRemoved(states[..|steps|], steps[..last]) + Removes(states[last], steps[last])
  {
  }

  /** In every run, what is in the queue and what was taken or discarded is what was queued: a message
      with its class, and a code exactly if the queue was not stopped. */
  lemma {:induction false} QueueIsConserved(states: seq<State>, steps: seq<Step>)
    requires Run(states, steps) && states[0] == START
    ensures multiset(states[|steps|].sh.mqueue) + AllRemoved(states, steps) == AllQueued(states, steps)
    decreases |steps|
  {
    hide Inv; hide Moves; hide Queues; hide Removes;
    if steps == [] {
      assert multiset(states[0].sh.mqueue) == multiset{};
    } else {
      hide AllQueued; hide AllRemoved;
      var last := |steps| - 1;
      RunFront(states, steps);
      QueueIsConserved(states[..|steps|], steps[..last]);
      EveryRunIsSafe(states, steps);
      StepBalances(states[last], steps[last], states[last + 1]);
      LastOfAll(states, steps);
      BalancesAddUp(multiset(states[last].sh.mqueue), AllRemoved(states[..|steps|], steps[..last]),
                    AllQueued(states[..|steps|], steps[..last]), multiset(states[last + 1].sh.mqueue),
                    Removes(states[last], steps[last]), Queues(states[last], steps[last]));
    }
  }

  lemma RunFront(states: seq<State>, steps: seq<Step>)
    requires Run(states, steps) && steps != []
    ensures Run(states[..|steps|], steps[..|steps| - 1]) && states[..|steps|][|steps| - 1] == states[|steps| - 1]
    ensures Moves(states[|steps| - 1], steps[|steps| - 1], states[|steps|])
  {
    hide Moves;
    var last := |steps| - 1;
    assert Moves(states[last], steps[last], states[last + 1]);
    forall i | 0 <= i < last
      ensures Moves(states[..|steps|][i], steps[..last][i], states[..|steps|][i + 1])
    {
      assert Moves(states[i], steps[i], states[i + 1]);
    }
  }

  /** A step that does not take or discard e leaves it in the queue. */
  lemma StaysQueued(s: State, step: Step, s': State, e: Entry)
    requires Inv(s) && Moves(s, step, s') && Removes(s, step)[e] == 0
    ensures multiset(s'.sh.mqueue)[e] == multiset(s.sh.mqueue)[e] + Queues(s, step)[e]
  {
    hide Inv; hide Moves; hide Removes; hide Queues;
    StepBalances(s, step, s');
    assert (multiset(s'.sh.mqueue) + Removes(s, step))[e] == (multiset(s.sh.mqueue) + Queues(s, step))[e];
  }

  /** A code that somebody queues before the stop is in the queue until the dispatch thread takes it. */
  lemma {:induction false} CodeWaits(states: seq<State>, steps: seq<Step>, code: Code, con: nat)
    requires Run(states, steps) && Inv(states[0]) && steps != [] && steps[0] == QueueCode(code, con)
    requires !states[0].sh.stop
    requires forall i :: 0 <= i < |steps| && steps[i].Take? && steps[i].k < |states[i].sh.mqueue| ==>
               states[i].sh.mqueue[steps[i].k] != Entry(0, CodeItem(code, con))
    ensures multiset(states[|steps|].sh.mqueue)[Entry(0, CodeItem(code, con))] > 0
    decreases |steps|
  {
    hide Inv; hide Moves; hide Class;
    var last := |steps| - 1;
    var e := Entry(0, CodeItem(code, con));
    RunFront(states, steps);
    RunKeeps(states, steps);
    EnabledOf(states[last], steps[last], states[last + 1]);
    if steps[last].Discard? {
      ClassHas(states[last].sh.mqueue, steps[last].id, e);
    }
    StaysQueued(states[last], steps[last], states[last + 1], e);
    if last > 0 {
      CodeWaits(states[..|steps|], steps[..last], code, con);
    }
  }

  lemma {:induction false} RunKeeps(states: seq<State>, steps: seq<Step>)
    requires Run(states, steps) && Inv(states[0])
    ensures forall i :: 0 <= i < |states| ==> Inv(states[i])
    decreases |steps|
  {
    if steps != [] {
      hide Inv; hide Moves;
      var last := |steps| - 1;
      RunFront(states, steps);
      RunKeeps(states[..|steps|], steps[..last]);
      assert forall i :: 0 <= i < |steps| ==> states[..|steps|][i] == states[i];
      StepKeepsInv(states[last], steps[last], states[last + 1]);
    }
  }

  lemma EnabledOf(s: State, step: Step, s': State)
    requires Moves(s, step, s')
    ensures Enabled(s, step)
  {
  }

  lemma {:induction false} ClassHas(q: seq<Entry>, id: nat, e: Entry)
    ensures e.cls != id ==> Class(q, id)[e] == 0
  {
    if q != [] {
      ClassHas(q[..|q| - 1], id, e);
    }
  }

  // ---------- what becomes of a message that is taken ----------

  /** A message in hand is dropped exactly if the queue has been stopped; otherwise it is dispatched,
      with the charge it carries, and then done. */
  lemma TakenThenDispatchedUnlessStopped(s: State, s': State)
    requires Inv(s) && s.thread.Has? && Moves(s, CheckStop, s')
    ensures var m := s.thread.m;
            && m < |s.msgs| && s'.msgs == s.msgs[m := s'.msgs[m]] && s'.sh == s.sh && s'.throttle == s.throttle
            && (s.sh.stop ==> s'.msgs[m] == s.msgs[m].(status := Dropped) && s'.thread == AtLoop)
            && (!s.sh.stop ==>
                  && s'.msgs[m] == s.msgs[m].(status := Dispatching(s.msgs[m].size), size := 0)
                  && s'.thread == Delivering(m))
  {
    EveryStepIsSafe(s, CheckStop);
  }

  /** At the end of its dispatch, by the thread or by a receiver, a message gives back what it was charged
      and is done. */
  lemma DispatchGivesBack(s: State, step: Step, s': State, m: nat)
    requires Inv(s) && Moves(s, step, s') && (step == FastEnd(m) || (step == Post && s.thread == Delivering(m)))
    ensures m < |s.msgs| && s.msgs[m].status.Dispatching? && |s'.msgs| == |s.msgs|
    ensures s'.throttle == s.throttle - (s.msgs[m].charged - s.msgs[m].released)
    ensures s'.msgs[m].status == Done && s'.msgs[m].released == s'.msgs[m].charged == s.msgs[m].charged
    ensures forall k :: 0 <= k < |s.msgs| && k != m ==> s'.msgs[k] == s.msgs[k]
    ensures s'.sh == s.sh && s'.thread == if step == Post then AtLoop else s.thread
  {
    EveryStepIsSafe(s, step);
    AccountOf(s, m);
  }

  lemma AccountOf(s: State, m: nat)
    requires Inv(s) && m < |s.msgs|
    ensures AccountOk(s.msgs[m])
  {
  }

  /** Nobody is kept waiting: whichever entry the queue picks, the thread at its loop may take it; a
      message just received may be queued or dispatched at once, and one that is done queued again; and
      the thread goes on with what it has in hand. */
  lemma EveryoneMayAct(s: State, k: nat, cls: nat, stamp: real)
    ensures s.thread == AtLoop && k < |s.sh.mqueue| ==> Enabled(s, Take(k))
    ensures s.thread == AtLoop && s.sh.mqueue == [] && s.sh.stop ==> Enabled(s, Exit)
    ensures k < |s.msgs| && s.msgs[k].status == Fresh ==> Enabled(s, FastBegin(k)) && Enabled(s, Enqueue(k, cls, stamp))
    ensures k < |s.msgs| && s.msgs[k].status == Done ==> Enabled(s, Enqueue(k, cls, stamp))
    ensures s.thread == Has(k) ==> Enabled(s, CheckStop)
    ensures s.thread == Delivering(k) ==> Enabled(s, Post)
    ensures s.thread == HasCode ==> Enabled(s, CodeDone)
  {
  }

  /** An id is handed out once. */
  lemma {:induction false} IdsAreFresh(states: seq<State>, steps: seq<Step>, i: nat, j: nat)
    requires Run(states, steps) && Inv(states[0]) && i < j <= |steps|
    ensures states[i].sh.nextId <= states[j].sh.nextId
    ensures steps[i] == GetId ==> states[i].sh.nextId < states[j].sh.nextId
    decreases j
  {
    hide Inv;
    RunKeeps(states, steps);
    assert Moves(states[j - 1], steps[j - 1], states[j]);
    IdsGrow(states[j - 1], steps[j - 1], states[j]);
    if i < j - 1 {
      IdsAreFresh(states, steps, i, j - 1);
    }
  }

  lemma IdsGrow(s: State, step: Step, s': State)
    requires Inv(s) && Moves(s, step, s')
    ensures s'.sh.nextId == s.sh.nextId + if step == GetId then 1 else 0
  {
    hide Inv;
    EveryStepIsSafe(s, step);
    InvShared(s);
    if step.Discard? {
      DiscardMirrors(s.sh, step.id);
    }
  }
}
