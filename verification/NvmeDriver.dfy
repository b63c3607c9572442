/** The queue-pair driver as it runs: buffers are popped from and pushed back to the pool,
    counters count, and one loop submits and polls until nothing is running. */
module NvmeDriver {
  import opened Prelude
  import opened NvmeMemory
  import opened NvmeQueue

  class QueueData {
    const c: Config
    var next: nat
    var flights: seq<Flight>
    var pool: seq<nat>
    var mem: Segments
    var dev: seq<byte>
    var depth: nat
    var numRunning: int
    var callbacks: nat
    var callbackPool: nat
    var order: seq<nat>
    var done: seq<Done>
    /** How often the context has been used after its callback ran. */
    ghost var late: nat

    ghost function View(): State
      reads this
    {
      State(next, flights, pool, mem, dev, depth, numRunning, callbacks, callbackPool, order, done)
    }

    /** aio_submit: what was pending becomes running. */
    constructor (c: Config, mem: Segments)
      requires ValidConfig(c) && |mem| == POOL && Sized(mem)
      ensures this.c == c && Initial(c, View()) && Inv(c, View()) && late == 0
    {
      this.c := c;
      next, flights, pool, this.mem, dev := 0, [], AllBuffers(), mem, c.dev0;
      depth, numRunning, callbacks, callbackPool := 0, |c.batch|, 0, 0;
      order, done, late := [], [], 0;
      new;
      InitialEstablishesInv(c, View());
    }

    /** The loop of alloc_buf_from_pool that pops the buffers. */
    method PopBuffers(count: nat) returns (segs: seq<nat>)
      requires count <= |pool|
      modifies this`pool
      ensures segs == TakeBack(old(pool), count) && pool == old(pool)[..|old(pool)| - count]
    {
      segs := [];
      var i := 0;
      while i < count
        invariant i <= count && |old(pool)| - i >= 0
        invariant pool == old(pool)[..|old(pool)| - i]
        invariant segs + TakeBack(pool, count - i) == TakeBack(old(pool), count)
      {
        segs := segs + [pool[|pool| - 1]];
        pool := pool[..|pool| - 1];
        i := i + 1;
      }
    }

    /** Any use of the context's fields. */
    ghost method TouchContext()
      modifies this`late
      ensures late == old(late) + if callbacks > 0 then 1 else 0
    {
      if callbacks > 0 {
        late := late + 1;
      }
    }

    /** release_segs, which also takes the segments off the context's account. */
    method ReleaseSegs(segs: seq<nat>)
      modifies this`pool, this`late
      ensures pool == old(pool) + segs
      ensures late == old(late) + if callbacks > 0 then 1 else 0
    {
      var i := 0;
      while i < |segs|
        invariant i <= |segs| && pool == old(pool) + segs[..i] && late == old(late)
      {
        pool := pool + [segs[i]];
        i := i + 1;
      }
      TouchContext();
    }

    /** One round of the submission loop for the task at hand; false means "goto again". */
    method SubmitTask() returns (ok: bool)
      requires Inv(c, View()) && next < |c.batch|
      modifies this
      ensures Inv(c, View())
      ensures !ok <==> old(depth) == c.maxDepth || SegCount(c.batch[old(next)].Len()) > old(|pool|)
      ensures ok ==> old(Enabled(c, View(), Submit)) && next == old(next) + 1 && depth == old(depth) + 1
      ensures ok ==> old(Safe(c, View(), Submit)) && View() == old(SubmitNext(c, View()))
      ensures !ok ==> View() == old(View()) && flights != []
      ensures late == old(late)
    {
      hide Inv; hide SubmitNext; hide Store; hide Gather; hide Contents; hide TakeBack;
      InvCounts(c, View());
      ghost var before := View();
      var cmd := c.batch[next];
      if depth == c.maxDepth {
        StalledHasFlights(c, before);
        return false;
      }
      var count := SegCount(cmd.Len());
      if count > |pool| {
        StalledHasFlights(c, before);
        return false;
      }
      StepKeepsInv(c, before, Submit);
      TakeBackInPool(pool, count);
      var segs := PopBuffers(count);
      TouchContext();
      if cmd.WriteCmd? {
        mem := Store(mem, segs, Gather(Contents(mem, segs), cmd.data));
      }
      flights := flights + [Flight(next, segs, false, 0)];
      next := next + 1;
      depth := depth + 1;
      ok := true;
      SubmissionIs(c, before, View());
    }

    /** The device carries out command k. */
    method Transfer(k: nat)
      requires Inv(c, View()) && k < |flights| && !flights[k].executed
      modifies this
      ensures Inv(c, View()) && old(Safe(c, View(), Execute(k))) && View() == old(ExecuteOne(c, View(), k))
      ensures late == old(late)
    {
      hide Inv; hide ExecuteOne; hide Put; hide Store; hide Gather; hide Emit; hide Contents;
      ghost var before := View();
      StepKeepsInv(c, before, Execute(k));
      var f := flights[k];
      var cmd := c.batch[f.idx];
      var here := Contents(mem, f.segs);
      if cmd.WriteCmd? {
        dev := Put(dev, cmd.off, Emit(here, cmd.Len(), ResetAt(|here|, cmd.Len(), 0)));
      } else {
        mem := Store(mem, f.segs, Gather(here, dev[cmd.off..cmd.off + cmd.len]));
      }
      flights := flights[k := f.(executed := true, at := |order|)];
      order := order + [f.idx];
      TransferIs(c, before, k, View());
    }

    /** io_complete. A write's buffers go back, and its context is charged for them, after the
        callback has run if that was the last command. */
    method IoComplete(k: nat)
      requires Inv(c, View()) && k < |flights| && flights[k].executed
      modifies this
      ensures Inv(c, View()) && old(Safe(c, View(), Complete(k))) && View() == old(CompleteOne(c, View(), k))
      ensures late == old(late) + if numRunning == 0 && c.batch[old(flights[k].idx)].WriteCmd? then 1 else 0
    {
      hide Inv; hide CompleteOne; hide CopyOut; hide Contents;
      ghost var before := View();
      StepKeepsInv(c, before, Complete(k));
      InvCounts(c, before);
      var f := flights[k];
      var cmd := c.batch[f.idx];
      depth := depth - 1;
      if cmd.WriteCmd? {
        CountDown();
        ReleaseSegs(f.segs);
        done := done + [Done(f.idx, [], f.at)];
      } else {
        var bytes := CopyOut(Contents(mem, f.segs), 0, cmd.len);
        ReleaseSegs(f.segs);
        CountDown();
        done := done + [Done(f.idx, bytes, f.at)];
      }
      flights := RemoveAt(flights, k);
      CompletionIs(c, before, k, View());
    }

    /** One command less is running; after the last one the callback runs, which may destroy the
        context. */
    method CountDown()
      modifies this`numRunning, this`callbacks, this`callbackPool, this`late
      ensures numRunning == old(numRunning) - 1
      ensures callbacks == old(callbacks) + if numRunning == 0 then 1 else 0
      ensures callbackPool == if numRunning == 0 then |pool| else old(callbackPool)
      ensures late == old(late) + if old(callbacks) > 0 then 1 else 0
    {
      TouchContext();
      numRunning := numRunning - 1;
      if numRunning == 0 {
        callbacks, callbackPool := callbacks + 1, |pool|;
      }
    }

    /** spdk_nvme_qpair_process_completions: what the device does meanwhile to outstanding commands,
        any of them in any order. */
    method ProcessCompletions(events: seq<DeviceEvent>)
      requires Inv(c, View()) && late == LateWrite(View(), c)
      modifies this
      ensures Inv(c, View()) && next == old(next) && numRunning <= old(numRunning)
      ensures late == LateWrite(View(), c)
      ensures Reports(events) && old(|flights|) > 0 ==> numRunning < old(numRunning)
    {
      hide Inv; hide CompleteOne; hide ExecuteOne; hide LateWrite; hide Safe;
      var i := 0;
      while i < |events|
        invariant i <= |events| && Inv(c, View()) && next == old(next) && numRunning <= old(numRunning)
        invariant late == LateWrite(View(), c)
        invariant Reports(events[..i]) && old(|flights|) > 0 ==> numRunning < old(numRunning)
        invariant !Reports(events[..i]) ==> |flights| == old(|flights|)
      {
        assert events[..i + 1] == events[..i] + [events[i]];
        if |flights| > 0 {
          var k := events[i].which % |flights|;
          if !flights[k].executed {
            ExecutionKeeps(c, View(), k);
            Transfer(k);
          }
          if events[i].Report? {
            CompletionKeeps(c, View(), k);
            IoComplete(k);
          }
        }
        i := i + 1;
      }
      assert events[..i] == events;
    }

    /** The test of the loop of _aio_handle. */
    method Running() returns (running: int)
      modifies this`late
      ensures running == numRunning && late == old(late) + if callbacks > 0 then 1 else 0
    {
      TouchContext();
      running := numRunning;
    }

    /** _aio_handle. `polls` says what the device does before each poll; the method returns
        unfinished only if that runs out. If every poll that finds something outstanding
        reports at least one command, one poll per task (and one more) is enough. The context is
        used after the callback once, by the test that ends the loop, and once more if and only if
        the last command is a write. */
    method AioHandle(polls: seq<seq<DeviceEvent>>) returns (finished: bool)
      requires Initial(c, View()) && Inv(c, View()) && late == 0
      modifies this
      ensures Inv(c, View()) && (finished <==> numRunning == 0)
      ensures callbacks == (if finished then 1 else 0)
      ensures finished ==> next == |c.batch| == |done| && flights == [] && depth == 0 &&
                           multiset(pool) == multiset(AllBuffers()) && dev == DeviceAfter(c, order)
      ensures finished ==> done != [] && done[|done| - 1].idx < |c.batch|
      ensures late == if finished then (if c.batch[done[|done| - 1].idx].WriteCmd? then 2 else 1) else 0
      ensures |polls| > |c.batch| && (forall p :: 0 <= p < |polls| ==> Reports(polls[p])) ==> finished
    {
      hide Inv; hide SubmitNext; hide LateWrite;
      InvCounts(c, View());
      NotLateYet(c, View());
      var p := 0;
      var running := Running();
      while running != 0 && p < |polls|
        invariant Inv(c, View()) && p <= |polls| && running == numRunning
        invariant late == LateWrite(View(), c) + if running == 0 then 1 else 0
        invariant p > 0 && numRunning > 0 ==> flights != []
        invariant AllReport(polls[..p]) && p > 0 ==> numRunning <= |c.batch| - (p - 1)
        decreases |polls| - p
      {
        InvCounts(c, View());
        assert polls[..p + 1] == polls[..p] + [polls[p]];
        if depth != 0 {
          ProcessCompletions(polls[p]);
        }
        SubmitAll();
        InvCounts(c, View());
        p := p + 1;
        running := Running();
      }
      finished := running == 0;
      assert polls[..|polls|] == polls;
      InvCounts(c, View());
      if finished {
        AtTheEnd(c, View());
      } else {
        NotLateYet(c, View());
      }
    }

    /** The loop that submits until there is no slot, no buffer or no task. */
    method SubmitAll()
      requires Inv(c, View()) && late == LateWrite(View(), c)
      modifies this
      ensures Inv(c, View()) && late == LateWrite(View(), c) && numRunning == old(numRunning)
      ensures numRunning > 0 ==> flights != []
      ensures next == |c.batch| || depth == c.maxDepth || SegCount(c.batch[next].Len()) > |pool|
    {
      hide Inv; hide LateWrite; hide SubmitNext;
      InvCounts(c, View());
      while next < |c.batch|
        invariant Inv(c, View()) && next <= |c.batch| && numRunning == old(numRunning)
        invariant late == LateWrite(View(), c)
        decreases |c.batch| - next
      {
        SubmissionKeeps(c, View());
        var ok := SubmitTask();
        if !ok {
          break;
        }
      }
      InvCounts(c, View());
    }
  }

  /** One byte written: the handler ends having used its context twice after the callback. */
  method OneWrite() returns (q: QueueData, finished: bool)
    ensures fresh(q) && finished && q.callbacks == 1 && q.late == 2
    ensures q.c.batch == [WriteCmd(0, [1])] && |q.done| == 1
  {
    var c := Config([WriteCmd(0, [1])], 1, [0]);
    var empty: seq<byte> := seq(BUF, _ => 0);
    q := new QueueData(c, seq(POOL, _ => empty));
    var polls := [[Report(0)], [Report(0)]];
    assert Reports([Report(0)]) by {
      assert [Report(0)][0].Report?;
    }
    finished := q.AioHandle(polls);
  }

  /** The device carries out an outstanding command, or reports it, which it does only after carrying
      it out; which % the number of outstanding commands says which one. */
  datatype DeviceEvent = CarryOut(which: nat) | Report(which: nat)

  ghost predicate Reports(events: seq<DeviceEvent>) {
    exists i :: 0 <= i < |events| && events[i].Report?
  }

  ghost predicate AllReport(polls: seq<seq<DeviceEvent>>) {
    forall p :: 0 <= p < |polls| ==> Reports(polls[p])
  }

  /** Whether release_segs has used the context after the callback. */
  ghost function LateWrite(s: State, c: Config): nat {
    if s.numRunning == 0 && s.done != [] && s.done[|s.done| - 1].idx < |c.batch| &&
       c.batch[s.done[|s.done| - 1].idx].WriteCmd? then 1 else 0
  }

  lemma NotLateYet(c: Config, s: State)
    requires s.numRunning != 0
    ensures LateWrite(s, c) == 0
  {
  }

  lemma SubmissionKeeps(c: Config, s: State)
    requires Inv(c, s) && s.next < |c.batch|
    ensures LateWrite(s, c) == 0 && s.callbacks == 0
    ensures Enabled(c, s, Submit) && Safe(c, s, Submit) ==>
              var t := SubmitNext(c, s);
              t.numRunning == s.numRunning && t.next == s.next + 1 && LateWrite(t, c) == 0
  {
  }

  lemma ExecutionKeeps(c: Config, s: State, k: nat)
    requires Inv(c, s) && Enabled(c, s, Execute(k))
    ensures Safe(c, s, Execute(k))
    ensures var t := ExecuteOne(c, s, k);
            && t.next == s.next && t.numRunning == s.numRunning && |t.flights| == |s.flights| && t.flights[k].executed
            && LateWrite(t, c) == LateWrite(s, c)
  {
    InvIsSafe(c, s, Execute(k));
  }

  lemma CompletionKeeps(c: Config, s: State, k: nat)
    requires Inv(c, s) && Enabled(c, s, Complete(k))
    ensures Safe(c, s, Complete(k)) && LateWrite(s, c) == 0
    ensures var t := CompleteOne(c, s, k);
            && t.next == s.next && t.numRunning == s.numRunning - 1
            && LateWrite(t, c) == if t.numRunning == 0 && c.batch[s.flights[k].idx].WriteCmd? then 1 else 0
  {
    InvIsSafe(c, s, Complete(k));
  }

  /** What a submission leaves behind, field by field. */
  lemma SubmissionIs(c: Config, s: State, t: State)
    requires Enabled(c, s, Submit) && Safe(c, s, Submit)
    requires var n := SegCount(c.batch[s.next].Len()); var segs := TakeBack(s.pool, n);
             t == s.(next := s.next + 1, flights := s.flights + [Flight(s.next, segs, false, 0)],
                     pool := s.pool[..|s.pool| - n], depth := s.depth + 1, mem := t.mem) && IdsInPool(segs)
    requires var cmd := c.batch[s.next]; var segs := TakeBack(s.pool, SegCount(cmd.Len()));
             t.mem == if cmd.WriteCmd? then Store(s.mem, segs, Gather(Contents(s.mem, segs), cmd.data)) else s.mem
    ensures t == SubmitNext(c, s)
  {
    hide Store; hide Gather; hide Contents; hide TakeBack;
  }

  /** What the transfer leaves behind, field by field. */
  lemma TransferIs(c: Config, s: State, k: nat, t: State)
    requires Enabled(c, s, Execute(k)) && Safe(c, s, Execute(k))
    requires t == s.(flights := s.flights[k := s.flights[k].(executed := true, at := |s.order|)],
                     order := s.order + [s.flights[k].idx], dev := t.dev, mem := t.mem)
    requires var f := s.flights[k]; var cmd := c.batch[f.idx]; var here := Contents(s.mem, f.segs);
             t.dev == if cmd.WriteCmd? then Put(s.dev, cmd.off, Emit(here, cmd.Len(), ResetAt(|here|, cmd.Len(), 0)))
                      else s.dev
    requires var f := s.flights[k]; var cmd := c.batch[f.idx]; var here := Contents(s.mem, f.segs);
             t.mem == if cmd.WriteCmd? then s.mem
                      else Store(s.mem, f.segs, Gather(here, s.dev[cmd.off..cmd.off + cmd.len]))
    ensures t == ExecuteOne(c, s, k)
  {
    hide Put; hide Store; hide Gather; hide Emit; hide Contents;
  }

  /** What io_complete leaves behind, field by field. */
  lemma CompletionIs(c: Config, s: State, k: nat, t: State)
    requires Enabled(c, s, Complete(k)) && Safe(c, s, Complete(k)) && s.depth > 0
    requires t == s.(flights := RemoveAt(s.flights, k), pool := s.pool + s.flights[k].segs, depth := s.depth - 1,
                     numRunning := s.numRunning - 1, callbacks := t.callbacks, callbackPool := t.callbackPool,
                     done := t.done)
    requires t.callbacks == s.callbacks + if t.numRunning == 0 then 1 else 0
    requires t.callbackPool == if t.numRunning != 0 then s.callbackPool
                               else if c.batch[s.flights[k].idx].WriteCmd? then |s.pool| else |t.pool|
    requires var f := s.flights[k]; var cmd := c.batch[f.idx];
             var bytes := if cmd.WriteCmd? then [] else CopyOut(Contents(s.mem, f.segs), 0, cmd.len);
             t.done == s.done + [Done(f.idx, bytes, f.at)]
    ensures t == CompleteOne(c, s, k)
  {
  }

  lemma AtTheEnd(c: Config, s: State)
    requires Inv(c, s) && s.numRunning == 0
    ensures s.next == |c.batch| == |s.done| && s.flights == [] && s.depth == 0
    ensures multiset(s.pool) == multiset(AllBuffers()) && s.dev == DeviceAfter(c, s.order)
    ensures s.done != [] && s.done[|s.done| - 1].idx < |c.batch|
    ensures LateWrite(s, c) == if c.batch[s.done[|s.done| - 1].idx].WriteCmd? then 1 else 0
  {
  }
}
