/** A batch of commands on one NVMe queue pair: submission under a queue-depth bound, buffers
    borrowed from a fixed pool, device transfers and completions in any order.

    The device may carry out an outstanding command at any time, in any order, through the
    scatter-gather iterator; completions are reported for carried-out commands, again in any
    order. `order` records the sequence in which the device carried commands out. */
module NvmeQueue {
  import opened Prelude
  import opened NvmeMemory
  import D = NvmeDevice

  const POOL: nat := 1024

  datatype Command = WriteCmd(off: nat, data: seq<byte>) | ReadCmd(off: nat, len: nat)
  {
    function Len(): nat {
      if WriteCmd? then |data| else len
    }
  }

  /** What stays fixed while the batch runs. */
  datatype Config = Config(batch: seq<Command>, maxDepth: nat, dev0: seq<byte>)

  /** at: how many commands the device had carried out when it came to this one. */
  datatype Flight = Flight(idx: nat, segs: seq<nat>, executed: bool, at: nat)

  datatype Done = Done(idx: nat, bytes: seq<byte>, at: nat)

  /** next: the first task not yet submitted; callbackPool: how many buffers were free when
      the completion callback ran. */
  datatype State = State(next: nat, flights: seq<Flight>, pool: seq<nat>, mem: Segments, dev: seq<byte>,
                         depth: nat, numRunning: int, callbacks: nat, callbackPool: nat,
                         order: seq<nat>, done: seq<Done>)

  datatype Step = Submit | Stall | Execute(k: nat) | Complete(k: nat)

  ghost predicate ValidConfig(c: Config) {
    && 0 < |c.batch| && 0 < c.maxDepth
    && forall i :: 0 <= i < |c.batch| ==>
         0 < c.batch[i].Len() && SegCount(c.batch[i].Len()) <= POOL &&
         c.batch[i].off + c.batch[i].Len() <= |c.dev0|
  }

  function AllBuffers(): seq<nat> {
    seq(POOL, i => i)
  }

  ghost predicate Initial(c: Config, s: State) {
    && s.next == 0 && s.flights == [] && s.pool == AllBuffers()
    && |s.mem| == POOL && Sized(s.mem) && s.dev == c.dev0
    && s.depth == 0 && s.numRunning == |c.batch| && s.callbacks == 0
    && s.order == [] && s.done == []
  }

  // ---------- buffers ----------

  /** The buffers taken from the back of the pool, in the order they are popped. */
  function TakeBack(pool: seq<nat>, n: nat): (segs: seq<nat>)
    requires n <= |pool|
    ensures |segs| == n && forall i :: 0 <= i < n ==> segs[i] == pool[|pool| - 1 - i]
  {
    if n == 0 then [] else [pool[|pool| - 1]] + TakeBack(pool[..|pool| - 1], n - 1)
  }

  ghost predicate IdsInPool(segs: seq<nat>) {
    forall i :: 0 <= i < |segs| ==> segs[i] < POOL
  }

  function Contents(mem: Segments, segs: seq<nat>): (c: Segments)
    requires |mem| == POOL && IdsInPool(segs)
    ensures |c| == |segs|
    ensures Sized(mem) ==> Sized(c)
  {
    seq(|segs|, i requires 0 <= i < |segs| => mem[segs[i]])
  }

  function Store(mem: Segments, segs: seq<nat>, c: Segments): (m: Segments)
    requires |mem| == POOL && IdsInPool(segs) && |c| == |segs|
    ensures |m| == POOL
    ensures Sized(mem) && Sized(c) ==> Sized(m)
    decreases |segs|
  {
    if segs == [] then mem
    else
      Store(mem[segs[0] := c[0]], segs[1..], c[1..])
  }

  // ---------- steps ----------

  ghost predicate Enabled(c: Config, s: State, step: Step) {
    match step
    case Submit =>
      s.next < |c.batch| && s.depth != c.maxDepth && SegCount(c.batch[s.next].Len()) <= |s.pool|
    case Stall =>
      s.next < |c.batch| && (s.depth == c.maxDepth || SegCount(c.batch[s.next].Len()) > |s.pool|)
    case Execute(k) => k < |s.flights| && !s.flights[k].executed
    case Complete(k) => k < |s.flights| && s.flights[k].executed
  }

  /** A step uses only buffers of the pool, whole buffers, and bytes of the device. */
  ghost predicate Safe(c: Config, s: State, step: Step)
    requires Enabled(c, s, step)
  {
    && |s.mem| == POOL && Sized(s.mem) && IdsInPool(s.pool) && |s.dev| == |c.dev0| && ValidConfig(c)
    && (step.Execute? || step.Complete? ==> FlightSafe(c, s.flights[step.k]))
  }

  ghost predicate FlightSafe(c: Config, f: Flight) {
    f.idx < |c.batch| && IdsInPool(f.segs) && |f.segs| == SegCount(c.batch[f.idx].Len())
  }

  lemma TakeBackFirst(pool: seq<nat>, n: nat)
    requires 0 < n <= |pool|
    ensures TakeBack(pool, n) == [pool[|pool| - 1]] + TakeBack(pool[..|pool| - 1], n - 1)
  {
  }

  lemma {:induction false} TakeBackBag(pool: seq<nat>, n: nat)
    requires n <= |pool|
    ensures multiset(pool) == multiset(pool[..|pool| - n]) + multiset(TakeBack(pool, n))
  {
    hide TakeBack;
    if n == 0 {
      assert pool[..|pool|] == pool && TakeBack(pool, 0) == [];
    } else {
      var front := pool[..|pool| - 1];
      TakeBackBag(front, n - 1);
      TakeBackFirst(pool, n);
      assert front[..|front| - (n - 1)] == pool[..|pool| - n];
      MoveLast(pool, pool[..|pool| - n], TakeBack(front, n - 1));
    }
  }

  lemma MoveLast(pool: seq<nat>, kept: seq<nat>, taken: seq<nat>)
    requires pool != [] && multiset(pool[..|pool| - 1]) == multiset(kept) + multiset(taken)
    ensures multiset(pool) == multiset(kept) + multiset([pool[|pool| - 1]] + taken)
  {
    assert pool == pool[..|pool| - 1] + [pool[|pool| - 1]];
  }

  lemma TakeBackInPool(pool: seq<nat>, n: nat)
    requires n <= |pool| && IdsInPool(pool)
    ensures IdsInPool(TakeBack(pool, n))
  {
  }

  /** alloc_buf_from_pool and the submission of the command. */
  function SubmitNext(c: Config, s: State): State
    requires Enabled(c, s, Submit) && Safe(c, s, Submit)
  {
    var cmd := c.batch[s.next];
    var n := SegCount(cmd.Len());
    var segs := TakeBack(s.pool, n);
    TakeBackInPool(s.pool, n);
    var mem := if cmd.WriteCmd? then Store(s.mem, segs, Gather(Contents(s.mem, segs), cmd.data)) else s.mem;
    s.(next := s.next + 1, flights := s.flights + [Flight(s.next, segs, false, 0)],
       pool := s.pool[..|s.pool| - n], mem := mem, depth := s.depth + 1)
  }

  /** The device carries out command k, moving the bytes the iterator hands out. */
  ghost function ExecuteOne(c: Config, s: State, k: nat): State
    requires Enabled(c, s, Execute(k)) && Safe(c, s, Execute(k))
  {
    var f := s.flights[k];
    var cmd := c.batch[f.idx];
    var here := Contents(s.mem, f.segs);
    var flights := s.flights[k := f.(executed := true, at := |s.order|)];
    var moved := s.(flights := flights, order := s.order + [f.idx]);
    if cmd.WriteCmd? then
      moved.(dev := Put(s.dev, cmd.off, Emit(here, cmd.Len(), ResetAt(|here|, cmd.Len(), 0))))
    else
      moved.(mem := Store(s.mem, f.segs, Gather(here, s.dev[cmd.off..cmd.off + cmd.len])))
  }

  function Put(dev: seq<byte>, off: nat, data: seq<byte>): (d: seq<byte>)
  {
    if off + |data| <= |dev| then D.Overlay(dev, off, data) else dev
  }

  /** io_complete. A write decrements the running count - and perhaps calls back - before it
      gives its buffers back; a read gives them back first. */
  function CompleteOne(c: Config, s: State, k: nat): State
    requires Enabled(c, s, Complete(k)) && Safe(c, s, Complete(k))
  {
    var f := s.flights[k];
    var cmd := c.batch[f.idx];
    var running := s.numRunning - 1;
    var freed := s.pool + f.segs;
    var bytes := if cmd.WriteCmd? then [] else CopyOut(Contents(s.mem, f.segs), 0, cmd.len);
    var t := s.(flights := RemoveAt(s.flights, k), pool := freed, depth := if s.depth > 0 then s.depth - 1 else 0,
                numRunning := running, done := s.done + [Done(f.idx, bytes, f.at)]);
    if running == 0 then
      t.(callbacks := s.callbacks + 1, callbackPool := if cmd.WriteCmd? then |s.pool| else |freed|)
    else t
  }

  ghost function Apply(c: Config, s: State, step: Step): State
    requires Enabled(c, s, step) && Safe(c, s, step)
  {
    match step
    case Submit => SubmitNext(c, s)
    case Stall => s
    case Execute(k) => ExecuteOne(c, s, k)
    case Complete(k) => CompleteOne(c, s, k)
  }

  // ---------- the device as a function of what was carried out ----------

  ghost predicate InRange(c: Config, order: seq<nat>) {
    forall i :: 0 <= i < |order| ==> order[i] < |c.batch|
  }

  function DeviceAfter(c: Config, order: seq<nat>): (d: seq<byte>)
    requires InRange(c, order)
  {
    if order == [] then c.dev0
    else
      var last := order[|order| - 1];
      var before := DeviceAfter(c, order[..|order| - 1]);
      if c.batch[last].WriteCmd? then Put(before, c.batch[last].off, c.batch[last].data) else before
  }

  // ---------- the invariant ----------

  ghost function HeldBag(flights: seq<Flight>): multiset<nat> {
    if flights == [] then multiset{}
    else HeldBag(flights[..|flights| - 1]) + multiset(flights[|flights| - 1].segs)
  }

  /** Free and borrowed buffers are together always the same 1024. */
  ghost predicate Conserved(s: State) {
    multiset(s.pool) + HeldBag(s.flights) == multiset(AllBuffers())
  }

  ghost predicate Counts(c: Config, s: State) {
    && s.depth == |s.flights| <= c.maxDepth
    && s.next <= |c.batch|
    && s.numRunning == |c.batch| - s.next + |s.flights|
    && s.callbacks == (if s.numRunning == 0 then 1 else 0)
    && |s.done| + |s.flights| == s.next
  }

  ghost predicate Flights(c: Config, s: State) {
    && (forall k :: 0 <= k < |s.flights| ==> s.flights[k].idx < s.next)
    && (forall j, k :: 0 <= j < k < |s.flights| ==> s.flights[j].idx != s.flights[k].idx)
  }

  /** The buffers of a submitted write hold its data, those of a read the device has carried
      out hold what the device held at that moment. */
  ghost predicate Loaded(c: Config, s: State, f: Flight)
    requires |s.mem| == POOL && Sized(s.mem) && FlightSafe(c, f) && InRange(c, s.order)
  {
    var cmd := c.batch[f.idx];
    var all := Flatten(Contents(s.mem, f.segs));
    |all| >= cmd.Len() && (f.executed ==> f.at <= |s.order|) &&
    if cmd.WriteCmd? then all[..cmd.Len()] == cmd.data
    else f.executed ==> Snapshot(c, s.order, cmd, f.at, all[..cmd.Len()])
  }

  /** bytes is what the device held under the read's range after `at` commands. */
  ghost predicate Snapshot(c: Config, order: seq<nat>, cmd: Command, at: nat, bytes: seq<byte>)
    requires InRange(c, order) && at <= |order|
  {
    cmd.off + |bytes| <= |DeviceAfter(c, order[..at])| &&
    bytes == DeviceAfter(c, order[..at])[cmd.off..cmd.off + |bytes|]
  }

  ghost predicate Typed(c: Config, s: State) {
    && |s.mem| == POOL && Sized(s.mem) && |s.dev| == |c.dev0| && IdsInPool(s.pool)
    && (forall k :: 0 <= k < |s.flights| ==> FlightSafe(c, s.flights[k]))
    && InRange(c, s.order)
  }

  /** Task i is submitted and not yet carried out. */
  ghost predicate Waiting(flights: seq<Flight>, i: nat) {
    exists k :: 0 <= k < |flights| && flights[k].idx == i && !flights[k].executed
  }

  ghost predicate Carried(c: Config, s: State)
    requires InRange(c, s.order)
  {
    && s.dev == DeviceAfter(c, s.order)
    && NoDuplicates(s.order)
    && (forall i: nat :: i in s.order <==> i < s.next && !Waiting(s.flights, i))
  }

  ghost predicate Reported(c: Config, s: State)
    requires InRange(c, s.order)
  {
    forall d :: 0 <= d < |s.done| ==>
      && s.done[d].idx < |c.batch| && s.done[d].at <= |s.order|
      && (c.batch[s.done[d].idx].ReadCmd? ==>
            |s.done[d].bytes| == c.batch[s.done[d].idx].len &&
            Snapshot(c, s.order, c.batch[s.done[d].idx], s.done[d].at, s.done[d].bytes))
  }

  ghost predicate Inv(c: Config, s: State) {
    && ValidConfig(c)
    && Typed(c, s) && Conserved(s) && Counts(c, s) && Flights(c, s) && Carried(c, s) && Reported(c, s)
    && (forall k :: 0 <= k < |s.flights| ==> Loaded(c, s, s.flights[k]))
  }

  // ---------- buffers are never shared ----------

  lemma {:induction false} BagOfDistinct(s: seq<nat>, x: nat)
    requires NoDuplicates(s)
    ensures multiset(s)[x] <= 1
  {
    if s != [] {
      var front := s[..|s| - 1];
      BagOfDistinct(front, x);
      assert s == front + [s[|s| - 1]];
      assert x in multiset(front) ==> x in front;
    }
  }

  lemma DistinctFromBag(s: seq<nat>)
    requires forall x :: multiset(s)[x] <= 1
    ensures NoDuplicates(s)
  {
    forall i, j | 0 <= i < j < |s|
      ensures s[i] != s[j]
    {
      assert s == s[..j] + s[j..];
      assert s[i] in s[..j] && s[j] in s[j..];
      assert multiset(s)[s[i]] == multiset(s[..j])[s[i]] + multiset(s[j..])[s[i]];
    }
  }

  lemma {:induction false} HeldBagWithout(flights: seq<Flight>, k: nat)
    requires k < |flights|
    ensures HeldBag(flights) == HeldBag(RemoveAt(flights, k)) + multiset(flights[k].segs)
  {
    var n := |flights|;
    if k < n - 1 {
      var front := flights[..n - 1];
      HeldBagWithout(front, k);
      var left := RemoveAt(flights, k);
      assert left[..|left| - 1] == RemoveAt(front, k);
    } else {
      assert RemoveAt(flights, k) == flights[..n - 1];
    }
  }

  lemma {:induction false} HeldBagUpdated(flights: seq<Flight>, k: nat, f: Flight)
    requires k < |flights| && f.segs == flights[k].segs
    ensures HeldBag(flights[k := f]) == HeldBag(flights)
  {
    HeldBagWithout(flights, k);
    HeldBagWithout(flights[k := f], k);
    assert RemoveAt(flights[k := f], k) == RemoveAt(flights, k);
  }

  lemma HeldBagAppended(flights: seq<Flight>, f: Flight)
    ensures HeldBag(flights + [f]) == HeldBag(flights) + multiset(f.segs)
  {
    assert (flights + [f])[..|flights|] == flights;
  }

  lemma AtMostOnce(pool: seq<nat>, flights: seq<Flight>, k: nat, x: nat)
    requires multiset(pool) + HeldBag(flights) == multiset(AllBuffers()) && k < |flights|
    ensures multiset(pool)[x] + HeldBag(RemoveAt(flights, k))[x] + multiset(flights[k].segs)[x] <= 1
    ensures x in flights[k].segs ==> x < POOL
  {
    HeldBagWithout(flights, k);
    BagOfDistinct(AllBuffers(), x);
    var all := multiset(pool) + HeldBag(flights);
    assert all[x] == multiset(AllBuffers())[x];
    if x in flights[k].segs {
      assert x in multiset(AllBuffers());
      assert x in AllBuffers();
    }
  }

  /** Conservation of the pool means no buffer is lent twice, and none is both free and lent. */
  lemma LentOnce(s: State, k: nat)
    requires Conserved(s) && k < |s.flights|
    ensures NoDuplicates(s.flights[k].segs) && IdsInPool(s.flights[k].segs)
  {
    forall x: nat
      ensures multiset(s.flights[k].segs)[x] <= 1 && (x in s.flights[k].segs ==> x < POOL)
    {
      AtMostOnce(s.pool, s.flights, k, x);
    }
    DistinctFromBag(s.flights[k].segs);
    assert forall i :: 0 <= i < |s.flights[k].segs| ==> s.flights[k].segs[i] in s.flights[k].segs;
  }

  lemma LentApart(s: State, j: nat, k: nat, x: nat)
    requires Conserved(s) && j < |s.flights| && k < |s.flights| && j != k && x in s.flights[k].segs
    ensures x !in s.flights[j].segs
  {
    AtMostOnce(s.pool, s.flights, k, x);
    var rest := RemoveAt(s.flights, k);
    var i := if j < k then j else j - 1;
    HeldBagWithout(rest, i);
    assert rest[i] == s.flights[j];
    assert x in multiset(s.flights[k].segs);
    assert multiset(s.flights[j].segs)[x] == 0;
  }

  lemma LentIsNotFree(s: State, k: nat, x: nat)
    requires Conserved(s) && k < |s.flights| && x in s.flights[k].segs
    ensures x !in s.pool
  {
    AtMostOnce(s.pool, s.flights, k, x);
    assert x in multiset(s.flights[k].segs);
    assert x in s.pool ==> x in multiset(s.pool);
  }

  lemma {:induction false} StoreAt(mem: Segments, segs: seq<nat>, c: Segments, y: nat)
    requires |mem| == POOL && IdsInPool(segs) && |c| == |segs| && y < POOL
    ensures y !in segs ==> Store(mem, segs, c)[y] == mem[y]
    decreases |segs|
  {
    if segs != [] {
      StoreAt(mem[segs[0] := c[0]], segs[1..], c[1..], y);
    }
  }

  lemma {:induction false} StoreThenContents(mem: Segments, segs: seq<nat>, c: Segments)
    requires |mem| == POOL && IdsInPool(segs) && |c| == |segs| && NoDuplicates(segs)
    ensures Contents(Store(mem, segs, c), segs) == c
    decreases |segs|
  {
    if segs != [] {
      var mem1 := mem[segs[0] := c[0]];
      StoreThenContents(mem1, segs[1..], c[1..]);
      assert segs[0] !in segs[1..];
      StoreAt(mem1, segs[1..], c[1..], segs[0]);
      var m := Store(mem, segs, c);
      forall i | 0 <= i < |segs|
        ensures Contents(m, segs)[i] == c[i]
      {
        if i > 0 {
          assert Contents(m, segs[1..])[i - 1] == c[1..][i - 1];
        }
      }
    }
  }

  lemma StoreElsewhere(mem: Segments, segs: seq<nat>, c: Segments, other: seq<nat>)
    requires |mem| == POOL && IdsInPool(segs) && |c| == |segs| && IdsInPool(other)
    requires forall x :: x in other ==> x !in segs
    ensures Contents(Store(mem, segs, c), other) == Contents(mem, other)
  {
    forall i | 0 <= i < |other|
      ensures Store(mem, segs, c)[other[i]] == mem[other[i]]
    {
      StoreAt(mem, segs, c, other[i]);
    }
  }

  // ---------- every step keeps the invariant ----------

  lemma SnapshotStays(c: Config, order: seq<nat>, more: nat, cmd: Command, at: nat, bytes: seq<byte>)
    requires InRange(c, order) && at <= |order| && InRange(c, order + [more])
    requires Snapshot(c, order, cmd, at, bytes)
    ensures Snapshot(c, order + [more], cmd, at, bytes)
  {
    assert (order + [more])[..at] == order[..at];
  }

  /** Writing into one flight's buffers leaves every other flight loaded. */
  lemma LoadedElsewhere(c: Config, s: State, s': State, j: nat, segs: seq<nat>, data: Segments)
    requires Typed(c, s) && Typed(c, s') && j < |s.flights| && Loaded(c, s, s.flights[j])
    requires IdsInPool(segs) && |data| == |segs| && s'.mem == Store(s.mem, segs, data)
    requires forall x :: x in s.flights[j].segs ==> x !in segs
    requires s'.order == s.order || (|s'.order| > 0 && s'.order == s.order + [s'.order[|s'.order| - 1]])
    ensures Loaded(c, s', s.flights[j])
  {
    var f := s.flights[j];
    var cmd := c.batch[f.idx];
    StoreElsewhere(s.mem, segs, data, f.segs);
    var all := Flatten(Contents(s.mem, f.segs));
    if cmd.ReadCmd? && f.executed && s'.order != s.order {
      SnapshotStays(c, s.order, s'.order[|s'.order| - 1], cmd, f.at, all[..cmd.Len()]);
    }
  }

  lemma LoadedSameMemory(c: Config, s: State, s': State, f: Flight)
    requires Typed(c, s) && Typed(c, s') && FlightSafe(c, f) && Loaded(c, s, f) && s'.mem == s.mem
    requires s'.order == s.order || (|s'.order| > 0 && s'.order == s.order + [s'.order[|s'.order| - 1]])
    ensures Loaded(c, s', f)
  {
    var cmd := c.batch[f.idx];
    var all := Flatten(Contents(s.mem, f.segs));
    if cmd.ReadCmd? && f.executed && s'.order != s.order {
      SnapshotStays(c, s.order, s'.order[|s'.order| - 1], cmd, f.at, all[..cmd.Len()]);
    }
  }

  lemma SubmitShape(c: Config, s: State, s': State)
    requires Enabled(c, s, Submit) && Safe(c, s, Submit) && s' == SubmitNext(c, s)
    ensures var n := SegCount(c.batch[s.next].Len()); var segs := TakeBack(s.pool, n);
            s' == s.(next := s.next + 1, flights := s.flights + [Flight(s.next, segs, false, 0)],
                     pool := s.pool[..|s.pool| - n], depth := s.depth + 1, mem := s'.mem) && IdsInPool(segs)
    ensures |s'.mem| == POOL && Sized(s'.mem)
  {
    TakeBackInPool(s.pool, SegCount(c.batch[s.next].Len()));
  }

  lemma LendingConserves(pool: seq<nat>, flights: seq<Flight>, n: nat, f: Flight)
    requires n <= |pool| && f.segs == TakeBack(pool, n)
    ensures multiset(pool[..|pool| - n]) + HeldBag(flights + [f]) == multiset(pool) + HeldBag(flights)
  {
    TakeBackBag(pool, n);
    HeldBagAppended(flights, f);
  }

  lemma SubmitKeepsConserved(c: Config, s: State, s': State)
    requires Inv(c, s) && Enabled(c, s, Submit) && s' == SubmitNext(c, s)
    ensures Conserved(s')
  {
    hide SubmitNext; hide TakeBack; hide HeldBag; hide Loaded; hide Carried; hide Reported;
    SubmitShape(c, s, s');
    var n := SegCount(c.batch[s.next].Len());
    LendingConserves(s.pool, s.flights, n, Flight(s.next, TakeBack(s.pool, n), false, 0));
  }

  lemma SubmitKeepsCounts(c: Config, s: State, s': State)
    requires Inv(c, s) && Enabled(c, s, Submit) && s' == SubmitNext(c, s)
    ensures Typed(c, s') && Counts(c, s') && Flights(c, s') && Conserved(s') && Reported(c, s')
  {
    hide Conserved; hide Snapshot; hide Loaded; hide Carried;
    SubmitShape(c, s, s');
    SubmitKeepsConserved(c, s, s');
  }

  lemma WaitingAppended(flights: seq<Flight>, f: Flight, i: nat)
    requires !f.executed
    ensures Waiting(flights + [f], i) <==> Waiting(flights, i) || i == f.idx
  {
    var more := flights + [f];
    assert more[|flights|] == f;
    if k :| 0 <= k < |flights| && flights[k].idx == i && !flights[k].executed {
      assert more[k] == flights[k];
    }
  }

  lemma WaitingUpdated(flights: seq<Flight>, k: nat, f: Flight, i: nat)
    requires k < |flights| && f.executed && f.idx == flights[k].idx
    requires forall j :: 0 <= j < |flights| && j != k ==> flights[j].idx != f.idx
    ensures Waiting(flights[k := f], i) <==> Waiting(flights, i) && i != f.idx
  {
    var upd := flights[k := f];
    if j :| 0 <= j < |flights| && flights[j].idx == i && !flights[j].executed {
      assert j != k ==> upd[j] == flights[j];
    }
    if j :| 0 <= j < |upd| && upd[j].idx == i && !upd[j].executed {
      assert upd[j] == flights[j];
    }
  }

  /** Removing an executed flight leaves the same tasks waiting. */
  lemma WaitingStays(flights: seq<Flight>, k: nat, i: nat)
    requires k < |flights| && flights[k].executed
    ensures Waiting(RemoveAt(flights, k), i) <==> Waiting(flights, i)
  {
    var left := RemoveAt(flights, k);
    if j :| 0 <= j < |flights| && flights[j].idx == i && !flights[j].executed {
      assert left[if j < k then j else j - 1] == flights[j];
    }
  }

  lemma SubmitKeepsCarried(c: Config, s: State, s': State)
    requires Inv(c, s) && Enabled(c, s, Submit) && s' == SubmitNext(c, s)
    ensures Carried(c, s')
  {
    hide SubmitNext; hide Waiting; hide Loaded; hide Conserved; hide Reported;
    SubmitShape(c, s, s');
    var f := Flight(s.next, TakeBack(s.pool, SegCount(c.batch[s.next].Len())), false, 0);
    assert !Waiting(s.flights, s.next) by {
      NotYetWaiting(s);
    }
    forall i: nat
      ensures i in s'.order <==> i < s'.next && !Waiting(s'.flights, i)
    {
      WaitingAppended(s.flights, f, i);
    }
  }

  lemma NotYetWaiting(s: State)
    requires forall k :: 0 <= k < |s.flights| ==> s.flights[k].idx < s.next
    ensures !Waiting(s.flights, s.next)
  {
  }

  lemma SubmitKeepsLoaded(c: Config, s: State, s': State, j: nat)
    requires Inv(c, s) && Enabled(c, s, Submit) && s' == SubmitNext(c, s)
    requires Typed(c, s') && Conserved(s') && j < |s'.flights|
    ensures Loaded(c, s', s'.flights[j])
  {
    var m := |s.flights|;
    var cmd := c.batch[s.next];
    var segs := s'.flights[m].segs;
    LentOnce(s', m);
    if cmd.ReadCmd? {
      if j < m {
        LoadedSameMemory(c, s, s', s.flights[j]);
      } else {
        FlattenLength(Contents(s'.mem, segs));
      }
    } else {
      var here := Contents(s.mem, segs);
      if j < m {
        forall x | x in s.flights[j].segs
          ensures x !in segs
        {
          LentApart(s', m, j, x);
        }
        LoadedElsewhere(c, s, s', j, segs, Gather(here, cmd.data));
      } else {
        StoreThenContents(s.mem, segs, Gather(here, cmd.data));
        GatherHoldsPayload(here, cmd.data);
      }
    }
  }

  lemma SubmitKeepsInv(c: Config, s: State, s': State)
    requires Inv(c, s) && Enabled(c, s, Submit) && s' == SubmitNext(c, s)
    ensures Inv(c, s')
  {
    SubmitKeepsCounts(c, s, s');
    SubmitKeepsCarried(c, s, s');
    forall j | 0 <= j < |s'.flights|
      ensures Loaded(c, s', s'.flights[j])
    {
      SubmitKeepsLoaded(c, s, s', j);
    }
  }

  lemma ExecuteShape(c: Config, s: State, k: nat, s': State)
    requires Enabled(c, s, Execute(k)) && Safe(c, s, Execute(k)) && s' == ExecuteOne(c, s, k)
    ensures s' == s.(flights := s.flights[k := s.flights[k].(executed := true, at := |s.order|)],
                     order := s.order + [s.flights[k].idx], dev := s'.dev, mem := s'.mem)
    ensures |s'.mem| == POOL && Sized(s'.mem) && |s'.dev| == |s.dev|
  {
  }

  lemma ExecuteKeepsCounts(c: Config, s: State, k: nat, s': State)
    requires Inv(c, s) && Enabled(c, s, Execute(k)) && s' == ExecuteOne(c, s, k)
    ensures Typed(c, s') && Counts(c, s') && Flights(c, s') && Conserved(s')
  {
    hide ExecuteOne; hide HeldBag; hide Carried; hide Reported; hide Loaded;
    ExecuteShape(c, s, k, s');
    HeldBagUpdated(s.flights, k, s'.flights[k]);
  }

  /** What a write moves to the device is exactly its data. */
  lemma WriteMovesItsData(c: Config, s: State, k: nat)
    requires Inv(c, s) && k < |s.flights| && c.batch[s.flights[k].idx].WriteCmd?
    ensures var f := s.flights[k]; var cmd := c.batch[f.idx]; var here := Contents(s.mem, f.segs);
            Emit(here, cmd.Len(), ResetAt(|here|, cmd.Len(), 0)) == cmd.data
  {
    var f := s.flights[k];
    var cmd := c.batch[f.idx];
    var here := Contents(s.mem, f.segs);
    assert Loaded(c, s, f);
    IteratorHandsOutTheRest(here, cmd.Len(), 0);
    assert Flatten(here)[0..cmd.Len()] == Flatten(here)[..cmd.Len()];
  }

  lemma ExecuteMovesTheDevice(c: Config, s: State, k: nat, s': State)
    requires Inv(c, s) && Enabled(c, s, Execute(k)) && s' == ExecuteOne(c, s, k)
    ensures var cmd := c.batch[s.flights[k].idx];
            s'.dev == if cmd.WriteCmd? then Put(s.dev, cmd.off, cmd.data) else s.dev
  {
    hide Conserved; hide Carried; hide Reported; hide Loaded; hide Put; hide Store; hide Gather; hide Emit;
    if c.batch[s.flights[k].idx].WriteCmd? {
      WriteMovesItsData(c, s, k);
    }
  }

  /** The command carried out was waiting, and now stands at the end of the order. */
  lemma NextInOrder(order: seq<nat>, next: nat, flights: seq<Flight>, k: nat, f: Flight)
    requires k < |flights| && !flights[k].executed && f.executed && f.idx == flights[k].idx
    requires forall j :: 0 <= j < |flights| && j != k ==> flights[j].idx != f.idx
    requires NoDuplicates(order) && forall i: nat :: i in order <==> i < next && !Waiting(flights, i)
    requires f.idx < next
    ensures NoDuplicates(order + [f.idx])
    ensures forall i: nat :: i in order + [f.idx] <==> i < next && !Waiting(flights[k := f], i)
  {
    hide Waiting;
    IsWaiting(flights, k);
    forall i: nat
      ensures i in order + [f.idx] <==> i < next && !Waiting(flights[k := f], i)
    {
      assert i in order + [f.idx] <==> i in order || i == f.idx;
      WaitingUpdated(flights, k, f, i);
    }
  }

  lemma ExecuteKeepsCarried(c: Config, s: State, k: nat, s': State)
    requires Inv(c, s) && Enabled(c, s, Execute(k)) && s' == ExecuteOne(c, s, k)
    requires InRange(c, s'.order)
    ensures Carried(c, s')
  {
    hide ExecuteOne; hide Waiting; hide Loaded; hide Conserved; hide Reported; hide Put; hide NoDuplicates;
    ExecuteShape(c, s, k, s');
    ExecuteMovesTheDevice(c, s, k, s');
    NextInOrder(s.order, s.next, s.flights, k, s'.flights[k]);
    assert s'.order[..|s'.order| - 1] == s.order;
  }

  lemma IsWaiting(flights: seq<Flight>, k: nat)
    requires k < |flights| && !flights[k].executed
    ensures Waiting(flights, flights[k].idx)
  {
  }

  /** Scattering bytes into distinct buffers leaves them at the front of the gathered contents. */
  lemma ScatteredBytes(mem: Segments, segs: seq<nat>, data: seq<byte>)
    requires |mem| == POOL && Sized(mem) && IdsInPool(segs) && NoDuplicates(segs) && |segs| == SegCount(|data|)
    requires data != []
    ensures var after := Contents(Store(mem, segs, Gather(Contents(mem, segs), data)), segs);
            Sized(after) && |data| <= |Flatten(after)| && Flatten(after)[..|data|] == data
  {
    hide Store; hide Flatten;
    var here := Contents(mem, segs);
    StoreThenContents(mem, segs, Gather(here, data));
    GatherHoldsPayload(here, data);
  }

  lemma ExecuteLoadsItself(c: Config, s: State, k: nat, s': State)
    requires Inv(c, s) && Enabled(c, s, Execute(k)) && s' == ExecuteOne(c, s, k)
    requires Typed(c, s') && c.batch[s.flights[k].idx].ReadCmd?
    ensures Loaded(c, s', s'.flights[k])
  {
    hide Conserved; hide Reported; hide Store; hide Gather; hide Flatten; hide Contents;
    var f := s.flights[k];
    var cmd := c.batch[f.idx];
    LentOnce(s, k);
    ScatteredBytes(s.mem, f.segs, s.dev[cmd.off..cmd.off + cmd.len]);
    assert s'.order[..|s.order|] == s.order;
  }

  lemma ExecuteLeavesOthers(c: Config, s: State, k: nat, s': State, j: nat)
    requires Inv(c, s) && Enabled(c, s, Execute(k)) && s' == ExecuteOne(c, s, k)
    requires Typed(c, s') && j < |s.flights| && j != k && c.batch[s.flights[k].idx].ReadCmd?
    ensures Loaded(c, s', s.flights[j])
  {
    var f := s.flights[k];
    var cmd := c.batch[f.idx];
    var here := Contents(s.mem, f.segs);
    forall x | x in s.flights[j].segs
      ensures x !in f.segs
    {
      LentApart(s, k, j, x);
    }
    LoadedElsewhere(c, s, s', j, f.segs, Gather(here, s.dev[cmd.off..cmd.off + cmd.len]));
  }

  lemma ExecuteKeepsLoaded(c: Config, s: State, k: nat, s': State, j: nat)
    requires Inv(c, s) && Enabled(c, s, Execute(k)) && s' == ExecuteOne(c, s, k)
    requires Typed(c, s') && j < |s'.flights|
    ensures Loaded(c, s', s'.flights[j])
  {
    ExecuteShape(c, s, k, s');
    if c.batch[s.flights[k].idx].WriteCmd? {
      LoadedSameMemory(c, s, s', s.flights[j]);
    } else if j == k {
      ExecuteLoadsItself(c, s, k, s');
    } else {
      ExecuteLeavesOthers(c, s, k, s', j);
    }
  }

  lemma ReportedStays(c: Config, s: State, s': State)
    requires InRange(c, s.order) && InRange(c, s'.order) && Reported(c, s) && s'.done == s.done
    requires |s'.order| > 0 && s'.order == s.order + [s'.order[|s'.order| - 1]]
    ensures Reported(c, s')
  {
    forall d | 0 <= d < |s.done| && c.batch[s.done[d].idx].ReadCmd?
      ensures Snapshot(c, s'.order, c.batch[s.done[d].idx], s.done[d].at, s.done[d].bytes)
    {
      SnapshotStays(c, s.order, s'.order[|s'.order| - 1], c.batch[s.done[d].idx], s.done[d].at, s.done[d].bytes);
    }
  }

  lemma ExecuteKeepsInv(c: Config, s: State, k: nat, s': State)
    requires Inv(c, s) && Enabled(c, s, Execute(k)) && s' == ExecuteOne(c, s, k)
    ensures Inv(c, s')
  {
    ExecuteKeepsCounts(c, s, k, s');
    ExecuteKeepsCarried(c, s, k, s');
    ReportedStays(c, s, s');
    forall j | 0 <= j < |s'.flights|
      ensures Loaded(c, s', s'.flights[j])
    {
      ExecuteKeepsLoaded(c, s, k, s', j);
    }
  }

  lemma CompleteShape(c: Config, s: State, k: nat, s': State)
    requires Enabled(c, s, Complete(k)) && Safe(c, s, Complete(k)) && s' == CompleteOne(c, s, k)
    ensures s' == s.(flights := RemoveAt(s.flights, k), pool := s.pool + s.flights[k].segs,
                     depth := if s.depth > 0 then s.depth - 1 else 0, numRunning := s.numRunning - 1,
                     callbacks := s.callbacks + if s.numRunning == 1 then 1 else 0,
                     callbackPool := s'.callbackPool, done := s'.done)
    ensures |s'.done| == |s.done| + 1
  {
    hide CopyOut; hide Contents;
  }

  lemma CompleteKeepsCounts(c: Config, s: State, k: nat, s': State)
    requires Inv(c, s) && Enabled(c, s, Complete(k)) && s' == CompleteOne(c, s, k)
    ensures Typed(c, s') && Counts(c, s') && Conserved(s')
  {
    hide CompleteOne; hide Carried; hide Reported; hide Loaded; hide HeldBag;
    CompleteShape(c, s, k, s');
    LentOnce(s, k);
    HeldBagWithout(s.flights, k);
  }

  lemma CompleteKeepsCarried(c: Config, s: State, k: nat, s': State)
    requires Inv(c, s) && Enabled(c, s, Complete(k)) && s' == CompleteOne(c, s, k)
    ensures Flights(c, s') && Carried(c, s')
  {
    hide CompleteOne; hide Waiting; hide Conserved; hide Reported; hide Loaded; hide DeviceAfter;
    CompleteShape(c, s, k, s');
    forall i: nat
      ensures i in s'.order <==> i < s'.next && !Waiting(s'.flights, i)
    {
      WaitingStays(s.flights, k, i);
    }
  }

  /** What a completed read hands its caller. */
  lemma CompletedBytes(c: Config, s: State, f: Flight)
    requires Typed(c, s) && FlightSafe(c, f) && Loaded(c, s, f) && f.executed && c.batch[f.idx].ReadCmd?
    ensures var cmd := c.batch[f.idx]; var here := Contents(s.mem, f.segs);
            cmd.len <= BUF * |here| && |CopyOut(here, 0, cmd.len)| == cmd.len && f.at <= |s.order| &&
            Snapshot(c, s.order, cmd, f.at, CopyOut(here, 0, cmd.len))
  {
    var cmd := c.batch[f.idx];
    var here := Contents(s.mem, f.segs);
    CopyOutIsRange(here, 0, cmd.len);
    assert Flatten(here)[0..cmd.len] == Flatten(here)[..cmd.len];
  }

  lemma CompleteKeepsReported(c: Config, s: State, k: nat, s': State)
    requires Inv(c, s) && Enabled(c, s, Complete(k)) && s' == CompleteOne(c, s, k)
    ensures Reported(c, s')
  {
    var f := s.flights[k];
    assert Loaded(c, s, f);
    if c.batch[f.idx].ReadCmd? {
      CompletedBytes(c, s, f);
    }
    var m := |s.done|;
    assert s'.done == s.done + [s'.done[m]] && s'.order == s.order;
    assert s'.done[m].idx == f.idx && s'.done[m].at == f.at;
  }

  lemma CompleteKeepsInv(c: Config, s: State, k: nat, s': State)
    requires Inv(c, s) && Enabled(c, s, Complete(k)) && s' == CompleteOne(c, s, k)
    ensures Inv(c, s')
  {
    CompleteKeepsCounts(c, s, k, s');
    CompleteKeepsCarried(c, s, k, s');
    CompleteKeepsReported(c, s, k, s');
    forall j | 0 <= j < |s'.flights|
      ensures Loaded(c, s', s'.flights[j])
    {
      LoadedSameMemory(c, s, s', s.flights[if j < k then j else j + 1]);
    }
  }

  lemma InvIsSafe(c: Config, s: State, step: Step)
    requires Inv(c, s) && Enabled(c, s, step)
    ensures Safe(c, s, step)
  {
  }

  lemma StepKeepsInv(c: Config, s: State, step: Step)
    requires Inv(c, s) && Enabled(c, s, step)
    ensures Safe(c, s, step) && Inv(c, Apply(c, s, step))
  {
    InvIsSafe(c, s, step);
    match step
    case Submit => SubmitKeepsInv(c, s, Apply(c, s, step));
    case Stall =>
    case Execute(k) => ExecuteKeepsInv(c, s, k, Apply(c, s, step));
    case Complete(k) => CompleteKeepsInv(c, s, k, Apply(c, s, step));
  }

  lemma InitialEstablishesInv(c: Config, s: State)
    requires ValidConfig(c) && Initial(c, s)
    ensures Inv(c, s)
  {
  }

  // ---------- whole runs ----------

  /** An unsafe step would leave an arbitrary state behind. */
  ghost predicate Moves(c: Config, s: State, s': State) {
    exists step :: Enabled(c, s, step) && (Safe(c, s, step) ==> s' == Apply(c, s, step))
  }

  ghost predicate IsRun(c: Config, run: seq<State>) {
    && ValidConfig(c) && |run| > 0 && Initial(c, run[0])
    && forall i :: 0 < i < |run| ==> Moves(c, run[i - 1], run[i])
  }

  lemma {:induction false} RunKeepsInv(c: Config, run: seq<State>, i: nat)
    requires IsRun(c, run) && i < |run|
    ensures Inv(c, run[i])
  {
    if i == 0 {
      InitialEstablishesInv(c, run[0]);
    } else {
      RunKeepsInv(c, run, i - 1);
      assert Moves(c, run[i - 1], run[i]);
      var step :| Enabled(c, run[i - 1], step) && (Safe(c, run[i - 1], step) ==> run[i] == Apply(c, run[i - 1], step));
      StepKeepsInv(c, run[i - 1], step);
    }
  }

  /** The depth counter is the number of outstanding commands and respects the bound; the
      free buffers and those held by outstanding commands are together exactly the original
      1024, each once. */
  lemma ResourcesAreAccounted(c: Config, run: seq<State>, i: nat)
    requires IsRun(c, run) && i < |run|
    ensures run[i].depth == |run[i].flights| <= c.maxDepth
    ensures multiset(run[i].pool) + HeldBag(run[i].flights) == multiset(AllBuffers())
    ensures |run[i].pool| + |HeldBag(run[i].flights)| == |AllBuffers()| == 1024
  {
    RunKeepsInv(c, run, i);
    var bag := multiset(run[i].pool) + HeldBag(run[i].flights);
    assert |bag| == |run[i].pool| + |HeldBag(run[i].flights)|;
    assert bag == multiset(AllBuffers()) && |multiset(AllBuffers())| == |AllBuffers()|;
  }

  /** So a buffer lent to one command is lent to no other, and is not free. */
  lemma NoBufferIsShared(c: Config, run: seq<State>, i: nat, j: nat, k: nat, x: nat)
    requires IsRun(c, run) && i < |run| && j < |run[i].flights| && k < |run[i].flights|
    requires x in run[i].flights[k].segs
    ensures NoDuplicates(run[i].flights[k].segs) && x < POOL && x !in run[i].pool
    ensures j != k ==> x !in run[i].flights[j].segs
  {
    RunKeepsInv(c, run, i);
    LentOnce(run[i], k);
    LentIsNotFree(run[i], k, x);
    if j != k {
      LentApart(run[i], j, k, x);
    }
  }

  lemma NothingLent(s: State)
    requires Conserved(s) && s.flights == []
    ensures |s.pool| == POOL
  {
    assert |multiset(s.pool)| == |s.pool| && |multiset(AllBuffers())| == |AllBuffers()|;
  }

  lemma StalledHasFlights(c: Config, s: State)
    requires Inv(c, s) && Enabled(c, s, Stall)
    ensures s.flights != []
  {
    if s.flights == [] {
      NothingLent(s);
    }
  }

  /** The submission loop never waits for nothing: when all slots are taken or too few buffers are
      free, some command is outstanding. */
  lemma StallMeansOutstanding(c: Config, run: seq<State>, i: nat)
    requires IsRun(c, run) && i < |run| && run[i].next < |c.batch|
    requires run[i].depth == c.maxDepth || SegCount(c.batch[run[i].next].Len()) > |run[i].pool|
    ensures run[i].flights != []
  {
    RunKeepsInv(c, run, i);
    StalledHasFlights(c, run[i]);
  }

  /** Of the next task only a full queue or a lack of buffers can hold up the submission. */
  lemma SubmitsIff(c: Config, run: seq<State>, i: nat)
    requires IsRun(c, run) && i < |run| && run[i].next < |c.batch|
    ensures Enabled(c, run[i], Submit) <==>
            |run[i].flights| < c.maxDepth &&
            SegCount(c.batch[run[i].next].Len()) + |HeldBag(run[i].flights)| <= POOL
  {
    RunKeepsInv(c, run, i);
    ResourcesAreAccounted(c, run, i);
  }

  lemma InvCounts(c: Config, s: State)
    requires Inv(c, s)
    ensures Counts(c, s)
  {
  }

  /** The handler's loop ends, and its callback fires, exactly when everything is over: all
      tasks submitted, carried out once each and completed, all buffers back. Before that
      the callback has not fired. */
  lemma ExitMeansEverythingIsDone(c: Config, run: seq<State>, i: nat)
    requires IsRun(c, run) && i < |run|
    ensures run[i].callbacks == (if run[i].numRunning == 0 then 1 else 0) && run[i].numRunning >= 0
    ensures run[i].numRunning == 0 ==>
              && run[i].next == |c.batch| == |run[i].done| && run[i].flights == [] && run[i].depth == 0
              && NoDuplicates(run[i].order) && (forall t: nat :: t in run[i].order <==> t < |c.batch|)
              && multiset(run[i].pool) == multiset(AllBuffers())
  {
    RunKeepsInv(c, run, i);
  }

  lemma PoolSize(c: Config, s: State, k: nat)
    requires Inv(c, s) && |s.flights| == 1 && k == 0
    ensures |s.pool| == POOL - |s.flights[k].segs|
  {
    assert HeldBag(s.flights) == multiset(s.flights[0].segs) by {
      assert s.flights[..0] == [];
    }
    var bag := multiset(s.pool) + multiset(s.flights[0].segs);
    assert |bag| == |s.pool| + |s.flights[0].segs|;
    assert bag == multiset(AllBuffers()) && |multiset(AllBuffers())| == |AllBuffers()|;
  }

  /** When the callback runs, all 1024 buffers are back in the pool if and only if the last
      command to complete was a read: a write calls back before it returns its own. */
  lemma BuffersAtTheCallback(c: Config, run: seq<State>, i: nat, k: nat)
    requires IsRun(c, run) && i < |run| && run[i].numRunning == 1 && Enabled(c, run[i], Complete(k))
    ensures Safe(c, run[i], Complete(k))
    ensures Apply(c, run[i], Complete(k)).callbacks == 1
    ensures Apply(c, run[i], Complete(k)).callbackPool == POOL <==> c.batch[run[i].flights[k].idx].ReadCmd?
    ensures |Apply(c, run[i], Complete(k)).pool| == POOL
  {
    RunKeepsInv(c, run, i);
    InvIsSafe(c, run[i], Complete(k));
    PoolSize(c, run[i], k);
  }

  /** How much is left to do. */
  ghost function Work(c: Config, s: State): int {
    3 * (|c.batch| - s.next) + Pending(s.flights)
  }

  ghost function Pending(flights: seq<Flight>): nat {
    if flights == [] then 0
    else Pending(flights[..|flights| - 1]) + (if flights[|flights| - 1].executed then 1 else 2)
  }

  lemma {:induction false} PendingWithout(flights: seq<Flight>, k: nat)
    requires k < |flights|
    ensures Pending(flights) == Pending(RemoveAt(flights, k)) + (if flights[k].executed then 1 else 2)
  {
    var n := |flights|;
    if k < n - 1 {
      var front := flights[..n - 1];
      PendingWithout(front, k);
      var left := RemoveAt(flights, k);
      assert left[..|left| - 1] == RemoveAt(front, k);
    } else {
      assert RemoveAt(flights, k) == flights[..n - 1];
    }
  }

  /** While anything is running, submitting, carrying out or completing a command is
      possible, and each of these leaves less to do. */
  lemma ProgressIsPossible(c: Config, run: seq<State>, i: nat)
    requires IsRun(c, run) && i < |run|
    ensures run[i].numRunning > 0 ==> exists step :: step != Stall && Enabled(c, run[i], step)
    ensures forall step :: step != Stall && Enabled(c, run[i], step) ==>
              Safe(c, run[i], step) && 0 <= Work(c, Apply(c, run[i], step)) < Work(c, run[i])
  {
    RunKeepsInv(c, run, i);
    var s := run[i];
    if s.numRunning > 0 && !Enabled(c, s, Submit) {
      if s.next < |c.batch| {
        StallMeansOutstanding(c, run, i);
      }
      assert Enabled(c, s, Execute(0)) || Enabled(c, s, Complete(0));
    }
    forall step | step != Stall && Enabled(c, s, step)
      ensures Safe(c, s, step) && 0 <= Work(c, Apply(c, s, step)) < Work(c, s)
    {
      StepIsWork(c, s, step);
    }
  }

  lemma StepIsWork(c: Config, s: State, step: Step)
    requires Inv(c, s) && Enabled(c, s, step) && step != Stall
    ensures Safe(c, s, step) && 0 <= Work(c, Apply(c, s, step)) < Work(c, s)
  {
    InvIsSafe(c, s, step);
    var s' := Apply(c, s, step);
    match step
    case Submit =>
      assert s'.flights[..|s.flights|] == s.flights;
    case Execute(k) =>
      PendingWithout(s.flights, k);
      PendingWithout(s'.flights, k);
      assert RemoveAt(s'.flights, k) == RemoveAt(s.flights, k);
    case Complete(k) =>
      PendingWithout(s.flights, k);
  }

  // ---------- end to end ----------

  function WriteBatch(ws: seq<D.Write>): seq<Command> {
    seq(|ws|, i requires 0 <= i < |ws| => WriteCmd(ws[i].off, ws[i].data))
  }

  lemma {:induction false} DeviceAfterWrites(c: Config, g: D.Geometry, ws: seq<D.Write>, order: seq<nat>)
    requires c.batch == WriteBatch(ws) && InRange(c, order) && D.AllExact(g, c.dev0, ws)
    ensures D.InRange(order, |ws|) && DeviceAfter(c, order) == D.ExecuteAll(g, c.dev0, ws, order)
  {
    if order != [] {
      DeviceAfterWrites(c, g, ws, order[..|order| - 1]);
    }
  }

  /** A buffer written with aio_write and submitted: whatever the interleaving of
      submissions, device transfers and completions, once the handler's loop ends the device
      holds the buffer in [off, off + len) and its old contents everywhere else. */
  lemma AioWriteReplacesTheRange(c: Config, g: D.Geometry, off: nat, bl: seq<byte>, run: seq<State>, i: nat)
    requires D.WellFormed(g) && D.ValidIo(g, off, |bl|) && g.size <= |c.dev0|
    requires c.batch == WriteBatch(D.Split(off, bl))
    requires IsRun(c, run) && i < |run| && run[i].numRunning == 0
    ensures run[i].dev == D.Overlay(c.dev0, off, bl)
  {
    RunKeepsInv(c, run, i);
    ExitMeansEverythingIsDone(c, run, i);
    D.SplitIsExact(g, c.dev0, off, bl);
    DeviceAfterWrites(c, g, D.Split(off, bl), run[i].order);
    D.WriteInAnyOrder(g, c.dev0, off, bl, run[i].order);
  }

  /** Command t writes byte j of the device. */
  ghost predicate Writes(c: Config, t: nat, j: nat) {
    t < |c.batch| && c.batch[t].WriteCmd? && c.batch[t].off <= j < c.batch[t].off + |c.batch[t].data|
  }

  ghost predicate WritesApart(c: Config) {
    forall t: nat, u: nat, j: nat :: Writes(c, t, j) && Writes(c, u, j) ==> t == u
  }

  /** Whatever was carried out before or after it, a write that no other write overlaps leaves its
      bytes; other bytes stay. */
  lemma {:induction false} ByteAfter(c: Config, order: seq<nat>, j: nat)
    requires InRange(c, order) && WritesApart(c) && j < |c.dev0|
    requires forall t :: 0 <= t < |c.batch| ==> c.batch[t].off + c.batch[t].Len() <= |c.dev0|
    ensures |DeviceAfter(c, order)| == |c.dev0|
    ensures forall t: nat :: t in order && Writes(c, t, j) ==>
              DeviceAfter(c, order)[j] == c.batch[t].data[j - c.batch[t].off]
    ensures (forall t: nat :: t in order ==> !Writes(c, t, j)) ==> DeviceAfter(c, order)[j] == c.dev0[j]
  {
    if order != [] {
      var front, last := order[..|order| - 1], order[|order| - 1];
      ByteAfter(c, front, j);
      assert order == front + [last];
      if Writes(c, last, j) {
        forall t: nat | t in order && Writes(c, t, j)
          ensures t == last
        {
        }
      }
    }
  }

  /** A batch of any writes that do not overlap, with any reads among them: however it interleaves,
      each write is on the device in the end, and the bytes nobody writes are as before. */
  lemma EveryWriteLands(c: Config, run: seq<State>, i: nat, j: nat)
    requires IsRun(c, run) && i < |run| && run[i].numRunning == 0 && WritesApart(c) && j < |c.dev0|
    ensures |run[i].dev| == |c.dev0|
    ensures forall t: nat :: Writes(c, t, j) ==> run[i].dev[j] == c.batch[t].data[j - c.batch[t].off]
    ensures (forall t: nat :: !Writes(c, t, j)) ==> run[i].dev[j] == c.dev0[j]
  {
    RunKeepsInv(c, run, i);
    ExitMeansEverythingIsDone(c, run, i);
    ByteAfter(c, run[i].order, j);
  }

  lemma EveryWriteKeepsTheSize(c: Config, run: seq<State>, i: nat)
    requires IsRun(c, run) && i < |run|
    ensures |run[i].dev| == |c.dev0|
  {
    RunKeepsInv(c, run, i);
  }

  /** The command of the batch that writes byte j of an aio_write. */
  lemma TaskWritesByte(c: Config, off: nat, bl: seq<byte>, j: nat) returns (t: nat)
    requires off <= j < off + |bl| <= |c.dev0|
    requires forall w :: w in D.Split(off, bl) ==> WriteCmd(w.off, w.data) in c.batch
    ensures Writes(c, t, j) && c.batch[t].data[j - c.batch[t].off] == bl[j - off]
  {
    D.TaskCovering(off, bl, j);
    var n := (j - off) / D.SPLIT;
    var w := D.Split(off, bl)[n];
    D.SplitShape(off, bl, n);
    assert w in D.Split(off, bl);
    D.SplitAgrees(c.dev0, off, bl, n, j);
    t :| t < |c.batch| && c.batch[t] == WriteCmd(w.off, w.data);
  }

  /** So every aio_write whose tasks are in such a batch is there in the end. */
  lemma EveryAioWriteLands(c: Config, run: seq<State>, i: nat, off: nat, bl: seq<byte>)
    requires IsRun(c, run) && i < |run| && run[i].numRunning == 0 && WritesApart(c) && off + |bl| <= |c.dev0|
    requires forall w :: w in D.Split(off, bl) ==> WriteCmd(w.off, w.data) in c.batch
    ensures |run[i].dev| == |c.dev0| && run[i].dev[off..off + |bl|] == bl
  {
    hide IsRun; hide WritesApart; hide Writes; hide D.Split;
    EveryWriteKeepsTheSize(c, run, i);
    forall j | off <= j < off + |bl|
      ensures run[i].dev[j] == bl[j - off]
    {
      var t := TaskWritesByte(c, off, bl, j);
      EveryWriteLands(c, run, i, j);
    }
  }

  lemma ReadsLeaveTheDevice(c: Config, order: seq<nat>)
    requires InRange(c, order) && forall t :: 0 <= t < |c.batch| ==> c.batch[t].ReadCmd?
    ensures DeviceAfter(c, order) == c.dev0
  {
  }

  /** A command that was carried out stands in the order at the place its flight or report names. */
  ghost predicate Stamped(s: State) {
    && (forall k :: 0 <= k < |s.flights| && s.flights[k].executed ==>
          s.flights[k].at < |s.order| && s.order[s.flights[k].at] == s.flights[k].idx)
    && (forall d :: 0 <= d < |s.done| ==> s.done[d].at < |s.order| && s.order[s.done[d].at] == s.done[d].idx)
  }

  lemma StepKeepsStamped(c: Config, s: State, step: Step)
    requires Inv(c, s) && Stamped(s) && Enabled(c, s, step) && Safe(c, s, step)
    ensures Stamped(Apply(c, s, step))
  {
    hide Inv;
    var s' := Apply(c, s, step);
    match step
    case Execute(k) => assert s'.order == s.order + [s.flights[k].idx];
    case Complete(k) => assert s'.order == s.order && s'.flights == RemoveAt(s.flights, k);
    case _ => assert s'.order == s.order && s'.done == s.done;
  }

  lemma {:induction false} RunKeepsStamped(c: Config, run: seq<State>, i: nat)
    requires IsRun(c, run) && i < |run|
    ensures Stamped(run[i])
  {
    if i > 0 {
      hide Stamped; hide Inv; hide Apply;
      RunKeepsStamped(c, run, i - 1);
      RunKeepsInv(c, run, i - 1);
      assert Moves(c, run[i - 1], run[i]);
      var step :| Enabled(c, run[i - 1], step) && (Safe(c, run[i - 1], step) ==> run[i] == Apply(c, run[i - 1], step));
      InvIsSafe(c, run[i - 1], step);
      StepKeepsStamped(c, run[i - 1], step);
    }
  }

  /** Every read that is reported returns what the device held at the moment it was carried out: after
      the commands before it in the order, of which it is the next. In a batch of reads that is what
      the device held all along. */
  lemma ReadsReturnTheDevice(c: Config, run: seq<State>, i: nat, d: nat)
    requires IsRun(c, run) && i < |run| && d < |run[i].done|
    requires run[i].done[d].idx < |c.batch| && c.batch[run[i].done[d].idx].ReadCmd?
    ensures var cmd := c.batch[run[i].done[d].idx]; var at := run[i].done[d].at;
            && at < |run[i].order| && run[i].order[at] == run[i].done[d].idx && InRange(c, run[i].order[..at])
            && cmd.off + cmd.len <= |DeviceAfter(c, run[i].order[..at])|
            && run[i].done[d].bytes == DeviceAfter(c, run[i].order[..at])[cmd.off..cmd.off + cmd.len]
    ensures (forall t :: 0 <= t < |c.batch| ==> c.batch[t].ReadCmd?) ==>
              var cmd := c.batch[run[i].done[d].idx];
              cmd.off + cmd.len <= |c.dev0| && run[i].done[d].bytes == c.dev0[cmd.off..cmd.off + cmd.len]
  {
    RunKeepsInv(c, run, i);
    RunKeepsStamped(c, run, i);
    var at := run[i].done[d].at;
    if forall t :: 0 <= t < |c.batch| ==> c.batch[t].ReadCmd? {
      ReadsLeaveTheDevice(c, run[i].order[..at]);
    }
  }
}
