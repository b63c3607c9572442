/** Which callback of a request is called, and how often: the one registered last, once by each
    INTERRUPT that has marked the request since, and once at its registration if the request had been
    interrupted before. */
module InterruptCalls {
  import opened Prelude
  import opened InterruptProtocol
  import R = InterruptRuns

  /** The callback in force after some registrations. */
  function Last(regs: seq<Option<nat>>): Option<nat> {
    if regs == [] then None else regs[|regs| - 1]
  }

  predicate WillCall(pc: IntrPc) {
    pc.Calling? && pc.func.Some?
  }

  predicate Counts(mark: Option<Mark>, r: nat, n: nat) {
    mark.Some? && mark.value == Mark(r, n, mark.value.func) && mark.value.func.Some?
  }

  /** The interrupts that have marked r, and found a callback, since the last registration. */
  ghost function Marked(s: State, r: nat): set<nat>
    requires r in s.reqs
  {
    set i | i in s.intrs && Counts(s.intrs[i].mark, r, |s.reqs[r].regs|)
  }

  /** The call that the last registration itself makes. */
  function AtRegistration(q: Req): nat {
    if q.early && Last(q.regs).Some? then 1 else 0
  }

  /** The call that whoever holds the request lock is about to make. */
  ghost function Due(s: State, r: nat): nat
    requires r in s.reqs
  {
    match s.reqs[r].lock
    case None => 0
    case Some(Owner(_)) => if s.reqs[r].pc.RegCheck? then AtRegistration(s.reqs[r]) else 0
    case Some(Interrupter(i)) => if i in s.intrs && WillCall(s.intrs[i].pc) then 1 else 0
  }

  ghost predicate CallsTally(s: State, r: nat)
    requires r in s.reqs
  {
    |s.reqs[r].calls| + Due(s, r) == |Marked(s, r)| + AtRegistration(s.reqs[r])
  }

  /** What the record of a request says of its registrations: the last one is in force until the
      owner gives the request back, and nothing else is called. */
  predicate RegsOk(q: Req) {
    && q.func == (if OwnerHolds(q.pc) then Last(q.regs) else None)
    && (q.pc.Arriving? || q.pc.Enqueuing? ==> q.regs == [])
    && (q.regs == [] ==> !q.early)
    && (q.pc.RegCheck? ==> Last(q.regs) == q.pc.f && q.early == q.interrupted && q.regs != [])
    && OnlyLastCalled(q)
  }

  predicate OnlyLastCalled(q: Req) {
    forall c :: c in q.calls ==> Last(q.regs) == Some(c)
  }

  /** Interrupt i has marked r before its n-th registration. */
  ghost predicate MarkedBefore(s: State, r: nat, n: nat, i: nat) {
    && i in s.intrs && s.intrs[i].mark.Some?
    && s.intrs[i].mark.value.req == r && s.intrs[i].mark.value.regs < n
  }

  ghost predicate SomeMarkedBefore(s: State, r: nat, n: nat) {
    exists i :: MarkedBefore(s, r, n, i)
  }

  /** A request is interrupted exactly when an INTERRUPT has marked it, and was so at its last
      registration exactly when one had marked it before. */
  ghost predicate InterruptedByMarks(s: State, r: nat)
    requires r in s.reqs
  {
    var q := s.reqs[r];
    && (q.interrupted <==> SomeMarkedBefore(s, r, |q.regs| + 1))
    && (q.early <==> SomeMarkedBefore(s, r, |q.regs|))
  }

  /** An INTERRUPT marks the request it aims at, once it has hold of it, finds the callback in force,
      if the owner has not given the request back, and calls it. */
  ghost predicate MarkOk(s: State, x: Intr) {
    && (Target(x.pc).Some? ==> Target(x.pc).value in s.reqs && s.reqs[Target(x.pc).value].unique == x.target)
    && (HasMarked(x.pc) ==> x.mark.Some? && Target(x.pc) == Some(x.mark.value.req))
    && (x.mark.Some? ==> (HasMarked(x.pc) || x.pc.Disposed?) && MarkFits(s, x.target, x.mark.value))
    && (x.pc.Calling? ==> x.pc.r in s.reqs && x.mark == Some(Mark(x.pc.r, |s.reqs[x.pc.r].regs|, x.pc.func)))
  }

  predicate HasMarked(pc: IntrPc) {
    pc.Calling? || pc.WantSeDrop? || pc.Dropping?
  }

  ghost predicate MarkFits(s: State, target: nat, m: Mark) {
    m.req in s.reqs && FitsRequest(s.reqs[m.req], target, m)
  }

  predicate FitsRequest(q: Req, target: nat, m: Mark) {
    && q.unique == target && m.regs <= |q.regs|
    && (m.func == Last(q.regs[..m.regs]) || (m.func.None? && !OwnerHolds(q.pc)))
  }

  ghost predicate Tallied(s: State) {
    && (forall r :: r in s.reqs ==> RegsOk(s.reqs[r]) && InterruptedByMarks(s, r) && CallsTally(s, r))
    && (forall i :: i in s.intrs ==> MarkOk(s, s.intrs[i]))
  }

  // ---------- a step of the owner ----------

  lemma OwnerRegisters(q: Req, r: nat, matched: bool)
    ensures var q' := OwnerWrites(q, r, matched);
            && q'.regs == (if q.pc.RegSetting? then q.regs + [q.pc.f] else q.regs)
            && q'.early == (if q.pc.RegSetting? then q.interrupted else q.early)
            && q'.interrupted == (q.interrupted || (q.pc.Enqueuing? && matched))
            && q'.unique == q.unique && (OwnerHolds(q'.pc) ==> OwnerHolds(q.pc))
  {
  }

  lemma OwnerCallsLast(q: Req, r: nat, matched: bool)
    requires OnlyLastCalled(q) && (q.pc.RegCheck? ==> Last(q.regs) == q.pc.f)
    ensures OnlyLastCalled(OwnerWrites(q, r, matched))
  {
  }

  lemma OwnerWritesFunc(q: Req, r: nat, matched: bool)
    ensures var q' := OwnerWrites(q, r, matched);
            && q'.func == (if q.pc.RegSetting? then q.pc.f else if q.pc.FreeLocked? then None else q.func)
            && (OwnerHolds(q'.pc) <==> OwnerHolds(q.pc) && !q.pc.FreeLocked?)
            && (q'.pc.RegCheck? ==> q.pc.RegSetting? && q'.pc.f == q.pc.f)
            && (q'.pc.Arriving? || q'.pc.Enqueuing? ==> q.pc.Arriving?)
  {
    match q.pc
    case RegSetting(f) =>
    case FreeLocked =>
    case Enqueuing =>
    case _ =>
  }

  lemma OwnerKeepsRegs(q: Req, r: nat, matched: bool)
    requires RegsOk(q)
    ensures RegsOk(OwnerWrites(q, r, matched))
  {
    hide OwnerWrites; hide OnlyLastCalled;
    OwnerRegisters(q, r, matched);
    OwnerWritesFunc(q, r, matched);
    OwnerCallsLast(q, r, matched);
  }

  /** The owner's own bookkeeping. */
  lemma OwnerTally(q: Req, r: nat, matched: bool)
    requires OwnerHasReqLock(q.pc) ==> q.lock == Some(Owner(r))
    requires q.pc.RegWantReq? ==> q.lock.None?
    requires q.lock == Some(Owner(r)) ==> OwnerHasReqLock(q.pc)
    requires RegsOk(q)
    ensures var q' := OwnerWrites(q, r, matched);
            && (q.pc.RegSetting? ==> q'.calls == [] && q'.pc.RegCheck? && q'.lock == Some(Owner(r)))
            && (q.pc.RegCheck? ==> |q'.calls| == |q.calls| + AtRegistration(q) && q'.lock.None?)
            && (!q.pc.RegSetting? && !q.pc.RegCheck? ==>
                  && q'.calls == q.calls && !q'.pc.RegCheck?
                  && (q'.lock == q.lock || (q'.lock == Some(Owner(r)) && q.lock.None?)))
  {
  }

  /** Marks as before, but for an interrupt of the queue that the arriving request matches: it has
      marked the request ahead of every registration. */
  ghost predicate OneMarksAtArrival(s: State, r: nat, s': State, matched: bool)
    requires r in s.reqs
  {
    && s'.intrs.Keys == s.intrs.Keys
    && (forall i :: i in s.intrs ==> SameMark(s.intrs[i], s'.intrs[i]) || MarksAtArrival(s, r, s.intrs[i], s'.intrs[i]))
    && (matched ==> exists i :: i in s.intrs && MarksAtArrival(s, r, s.intrs[i], s'.intrs[i]))
    && ((exists i :: i in s.intrs && MarksAtArrival(s, r, s.intrs[i], s'.intrs[i])) ==> matched)
  }

  predicate SameMark(x: Intr, x': Intr) {
    && x'.mark == x.mark && x'.target == x.target
    && (x'.pc == x.pc || (x.pc.Queued? && x'.pc.Evicted?))
  }

  predicate MarksAtArrival(s: State, r: nat, x: Intr, x': Intr)
    requires r in s.reqs
  {
    && x.pc.Queued? && x.target == s.reqs[r].unique
    && x' == x.(pc := Disposed, disposals := x.disposals + 1, mark := Some(Mark(r, 0, None)))
  }

  lemma OwnerMarks(s: State, r: nat, s': State)
    requires r in s.reqs && (forall i :: i in s.queued ==> i in s.intrs && s.intrs[i].pc.Queued?)
    requires s' == OwnerApply(s, r)
    ensures OneMarksAtArrival(s, r, s', s.reqs[r].pc.Enqueuing? && FindQueued(s, s.reqs[r].unique, 0) < |s.queued|)
  {
    hide OwnerWrites; hide Unlink;
    if s.reqs[r].pc.Enqueuing? {
      EnqueueMarks(s, r, s');
    } else {
      assert s'.intrs == s.intrs;
    }
  }

  lemma EnqueueWrites(s: State, r: nat, s': State)
    requires r in s.reqs && (forall i :: i in s.queued ==> i in s.intrs) && s' == Enqueue(s, r)
    ensures var k := FindQueued(s, s.reqs[r].unique, 0);
            s'.intrs == if s.queued == [] then s.intrs
                        else if k == |s.queued| then s.intrs[s.queued[0] := s.intrs[s.queued[0]].(pc := Evicted)]
                        else s.intrs[s.queued[k] := Dispose(s.intrs[s.queued[k]]).(mark := Some(Mark(r, 0, None)))]
  {
    hide RemoveAt; hide TakenIn;
  }

  lemma EnqueueMarks(s: State, r: nat, s': State)
    requires r in s.reqs && (forall i :: i in s.queued ==> i in s.intrs && s.intrs[i].pc.Queued?)
    requires s' == Enqueue(s, r)
    ensures OneMarksAtArrival(s, r, s', FindQueued(s, s.reqs[r].unique, 0) < |s.queued|)
  {
    hide Enqueue;
    EnqueueWrites(s, r, s');
    var k := FindQueued(s, s.reqs[r].unique, 0);
    if k < |s.queued| {
      assert MarksAtArrival(s, r, s.intrs[s.queued[k]], s'.intrs[s.queued[k]]);
    }
  }

  /** Who has marked what, after a step of r's owner. */
  lemma OwnerCarriesMarks(s: State, r: nat, s': State, matched: bool, t: nat, n: nat)
    requires r in s.reqs && OneMarksAtArrival(s, r, s', matched)
    requires forall i :: i in s.intrs ==> MarkOk(s, s.intrs[i])
    ensures SomeMarkedBefore(s', t, n) <==> SomeMarkedBefore(s, t, n) || (matched && t == r && n > 0)
  {
    if i :| MarkedBefore(s, t, n, i) {
      assert MarkedBefore(s', t, n, i);
    }
    if matched && t == r && n > 0 {
      var i :| i in s.intrs && MarksAtArrival(s, r, s.intrs[i], s'.intrs[i]);
      assert MarkedBefore(s', t, n, i);
    }
    if i :| MarkedBefore(s', t, n, i) {
      assert MarkedBefore(s, t, n, i) || MarksAtArrival(s, r, s.intrs[i], s'.intrs[i]);
    }
  }

  lemma MarkedAsBefore(s: State, r: nat, s': State, matched: bool, t: nat)
    requires r in s.reqs && OneMarksAtArrival(s, r, s', matched)
    requires t in s.reqs && t in s'.reqs && s'.reqs[t].regs == s.reqs[t].regs
    requires forall i :: i in s.intrs ==> MarkOk(s, s.intrs[i])
    ensures Marked(s', t) == Marked(s, t)
  {
    hide MarkFits; hide FitsRequest;
  }

  /** Nobody has marked beyond the registrations there are. */
  lemma NoMarksBeyond(s: State, t: nat, n: nat)
    requires t in s.reqs && n > |s.reqs[t].regs| && forall i :: i in s.intrs ==> MarkOk(s, s.intrs[i])
    ensures SomeMarkedBefore(s, t, n) <==> SomeMarkedBefore(s, t, |s.reqs[t].regs| + 1)
  {
    var m := |s.reqs[t].regs| + 1;
    if i :| MarkedBefore(s, t, n, i) {
      assert MarkFits(s, s.intrs[i].target, s.intrs[i].mark.value);
      assert MarkedBefore(s, t, m, i);
    }
    if i :| MarkedBefore(s, t, m, i) {
      assert MarkedBefore(s, t, n, i);
    }
  }

  lemma OwnerKeepsInterrupted(s: State, r: nat, s': State, matched: bool, t: nat)
    requires Tallied(s) && r in s.reqs && OneMarksAtArrival(s, r, s', matched) && t in s.reqs
    requires matched ==> s.reqs[r].pc.Enqueuing?
    requires s'.reqs == s.reqs[r := OwnerWrites(s.reqs[r], r, matched)]
    ensures InterruptedByMarks(s', t)
  {
    hide OneMarksAtArrival; hide SomeMarkedBefore; hide OwnerWrites; hide CallsTally; hide MarkOk;
    OwnerRegisters(s.reqs[r], r, matched);
    var n := |s.reqs[t].regs|;
    assert InterruptedByMarks(s, t) && RegsOk(s.reqs[t]);
    OwnerCarriesMarks(s, r, s', matched, t, n);
    OwnerCarriesMarks(s, r, s', matched, t, n + 1);
    OwnerCarriesMarks(s, r, s', matched, t, n + 2);
    NoMarksBeyond(s, t, n + 2);
  }

  lemma OwnerKeepsFit(q: Req, r: nat, matched: bool, target: nat, m: Mark)
    requires FitsRequest(q, target, m)
    ensures FitsRequest(OwnerWrites(q, r, matched), target, m)
  {
    hide OwnerWrites;
    OwnerRegisters(q, r, matched);
    if q.pc.RegSetting? {
      assert (q.regs + [q.pc.f])[..m.regs] == q.regs[..m.regs];
    }
  }

  lemma OwnerKeepsMarkOk(s: State, r: nat, s': State, matched: bool, i: nat)
    requires Tallied(s) && ReqLocks(s) && r in s.reqs && OneMarksAtArrival(s, r, s', matched) && i in s.intrs
    requires matched ==> s.reqs[r].pc.Enqueuing?
    requires s'.reqs == s.reqs[r := OwnerWrites(s.reqs[r], r, matched)]
    ensures MarkOk(s', s'.intrs[i])
  {
    hide OwnerWrites; hide CallsTally; hide InterruptedByMarks; hide FitsRequest; hide RegsOk;
    OwnerRegisters(s.reqs[r], r, matched);
    var x := s.intrs[i];
    assert MarkOk(s, x);
    if SameMark(x, s'.intrs[i]) {
      if x.mark.Some? && x.mark.value.req == r {
        OwnerKeepsFit(s.reqs[r], r, matched, x.target, x.mark.value);
      }
      assert x.pc.Calling? ==> IntrHasReqLock(x.pc, x.pc.r);
    } else {
      NewMarkFits(s'.reqs[r], x.target);
    }
  }

  lemma NewMarkFits(q: Req, target: nat)
    requires q.unique == target
    ensures forall r :: FitsRequest(q, target, Mark(r, 0, None))
  {
  }

  /** A request that nobody but its owner writes, while marks and calls to come are as before. */
  lemma SameTally(s: State, s': State, t: nat)
    requires t in s.reqs && t in s'.reqs && CallsTally(s, t)
    requires s'.reqs[t].calls == s.reqs[t].calls && AtRegistration(s'.reqs[t]) == AtRegistration(s.reqs[t])
    requires Marked(s', t) == Marked(s, t) && Due(s', t) == Due(s, t)
    ensures CallsTally(s', t)
  {
    hide Marked; hide Due;
  }

  /** Nobody has marked a registration that is still to come. */
  lemma NoneMarked(s: State, t: nat)
    requires t in s.reqs
    requires forall i :: i in s.intrs && s.intrs[i].mark.Some? && s.intrs[i].mark.value.req == t ==>
               s.intrs[i].mark.value.regs < |s.reqs[t].regs|
    ensures Marked(s, t) == {}
  {
  }

  lemma MarksAreOld(s: State, r: nat, s': State, matched: bool, i: nat)
    requires r in s.reqs && OneMarksAtArrival(s, r, s', matched) && i in s.intrs && MarkOk(s, s.intrs[i])
    ensures s'.intrs[i].mark.Some? && s'.intrs[i].mark.value.req == r ==>
              s'.intrs[i].mark.value.regs <= |s.reqs[r].regs|
  {
  }

  lemma OwnerKeepsOwnTally(s: State, r: nat, s': State, matched: bool)
    requires Tallied(s) && ReqLocks(s) && r in s.reqs && OwnerEnabled(s, r) && OneMarksAtArrival(s, r, s', matched)
    requires s'.reqs == s.reqs[r := OwnerWrites(s.reqs[r], r, matched)]
    ensures CallsTally(s', r)
  {
    hide Marked; hide OwnerWrites; hide MarkOk; hide InterruptedByMarks;
    var q := s.reqs[r];
    assert q.lock.Some? ==> HoldsReqLock(s, q.lock.value, r);
    OwnerTally(q, r, matched);
    OwnerRegisters(q, r, matched);
    if q.pc.RegSetting? {
      forall i | i in s.intrs
        ensures s'.intrs[i].mark.Some? && s'.intrs[i].mark.value.req == r ==>
                  s'.intrs[i].mark.value.regs < |s'.reqs[r].regs|
      {
        MarksAreOld(s, r, s', matched, i);
      }
      NoneMarked(s', r);
    } else {
      MarkedAsBefore(s, r, s', matched, r);
      OwnerLeavesDue(s, r, s', matched);
    }
  }

  lemma OwnerLeavesDue(s: State, r: nat, s': State, matched: bool)
    requires r in s.reqs && OneMarksAtArrival(s, r, s', matched)
    ensures s'.intrs.Keys == s.intrs.Keys
    ensures forall i :: i in s.intrs ==> WillCall(s'.intrs[i].pc) == WillCall(s.intrs[i].pc)
  {
  }

  lemma OwnerKeepsOtherTally(s: State, r: nat, s': State, matched: bool, t: nat)
    requires Tallied(s) && r in s.reqs && OneMarksAtArrival(s, r, s', matched) && t in s.reqs && t != r
    requires t in s'.reqs && s'.reqs[t] == s.reqs[t]
    ensures CallsTally(s', t)
  {
    hide Marked; hide MarkOk; hide WillCall; hide RegsOk; hide InterruptedByMarks; hide OneMarksAtArrival;
    hide AtRegistration;
    MarkedAsBefore(s, r, s', matched, t);
    OwnerLeavesDue(s, r, s', matched);
    SameTally(s, s', t);
  }

  lemma OwnerKeepsTallied(s: State, r: nat)
    requires Inv(s) && Tallied(s) && r in s.reqs && OwnerEnabled(s, r)
    ensures Tallied(OwnerApply(s, r))
  {
    hide OwnerApply; hide OwnerWrites; hide FindQueued; hide CallsTally; hide InterruptedByMarks; hide MarkOk;
    hide Counted; hide Linked; hide ReqLocks; hide SeLock; hide Disposals; hide RegsOk;
    var s', matched := OwnerApply(s, r), s.reqs[r].pc.Enqueuing? && FindQueued(s, s.reqs[r].unique, 0) < |s.queued|;
    OwnerChangesItself(s, r, s');
    OwnerMarks(s, r, s');
    OwnerKeepsRegs(s.reqs[r], r, matched);
    forall t | t in s.reqs
      ensures InterruptedByMarks(s', t) && CallsTally(s', t)
    {
      OwnerKeepsInterrupted(s, r, s', matched, t);
      if t == r {
        OwnerKeepsOwnTally(s, r, s', matched);
      } else {
        OwnerKeepsOtherTally(s, r, s', matched, t);
      }
    }
    forall i | i in s'.intrs
      ensures MarkOk(s', s'.intrs[i])
    {
      OwnerKeepsMarkOk(s, r, s', matched, i);
    }
  }

  // ---------- a step of an interrupter ----------

  lemma IntrTally(q: Req, i: nat, pc: IntrPc)
    ensures var q' := IntrWrites(q, i, pc);
            && q'.regs == q.regs && q'.early == q.early && q'.pc == q.pc && q'.func == q.func && q'.unique == q.unique
            && q'.calls == (if WillCall(pc) then q.calls + [pc.func.value] else q.calls)
            && q'.interrupted == (q.interrupted || pc.Marking?)
            && q'.lock == (if pc.WantReqLock? then Some(Interrupter(i)) else if pc.Calling? then None else q.lock)
  {
  }

  /** What an interrupter's step makes of itself. */
  lemma IntrMarkStep(s: State, i: nat, s': State)
    requires References(s) && Indexed(s) && i in s.intrs && s' == IntrApply(s, i)
    ensures i in s'.intrs
    ensures var x, x' := s.intrs[i], s'.intrs[i];
            && (x.pc.Marking? ==>
                  && x'.pc == Calling(x.pc.r, s.reqs[x.pc.r].func)
                  && x'.mark == Some(Mark(x.pc.r, |s.reqs[x.pc.r].regs|, s.reqs[x.pc.r].func)))
            && (!x.pc.Marking? ==> x'.mark == x.mark && !x'.pc.Calling?)
            && (x.pc.Calling? ==> x'.pc == WantSeDrop(x.pc.r))
            && (x.pc.WantSeDrop? ==> x'.pc == Dropping(x.pc.r))
            && (x.pc.Dropping? ==> x'.pc == Disposed)
            && (x.pc.Disposed? ==> x'.pc == Disposed)
            && (HasMarked(x'.pc) ==> x.pc.Marking? || x.pc.Calling? || x.pc.WantSeDrop?)
  {
    hide FindQueued; hide FindPending; hide IntrWrites;
  }

  /** The interrupter that marks t is counted for the first time. */
  lemma OneMoreMarked(s: State, s': State, i: nat, t: nat, x': Intr)
    requires t in s.reqs && t in s'.reqs && s'.reqs[t].regs == s.reqs[t].regs && i in s.intrs
    requires s'.intrs == s.intrs[i := x'] && s.intrs[i].mark.None? && Counts(x'.mark, t, |s.reqs[t].regs|)
    ensures |Marked(s', t)| == |Marked(s, t)| + 1
  {
    assert Marked(s', t) == Marked(s, t) + {i};
    assert i !in Marked(s, t);
  }

  lemma NoMoreMarked(s: State, s': State, i: nat, t: nat, x': Intr)
    requires t in s.reqs && t in s'.reqs && s'.reqs[t].regs == s.reqs[t].regs && i in s.intrs
    requires s'.intrs == s.intrs[i := x']
    requires x'.mark == s.intrs[i].mark ||
             (s.intrs[i].mark.None? && !Counts(x'.mark, t, |s.reqs[t].regs|))
    ensures Marked(s', t) == Marked(s, t)
  {
  }

  /** The lock of a request that the interrupter does not work on is not its own. */
  lemma DueElsewhere(s: State, s': State, i: nat, t: nat, x': Intr)
    requires ReqLocks(s) && i in s.intrs && t in s.reqs && Target(s.intrs[i].pc) != Some(t)
    requires s'.intrs == s.intrs[i := x'] && t in s'.reqs
    requires s'.reqs[t].lock == s.reqs[t].lock && s'.reqs[t].pc == s.reqs[t].pc
    requires AtRegistration(s'.reqs[t]) == AtRegistration(s.reqs[t])
    ensures Due(s', t) == Due(s, t)
  {
    assert s.reqs[t].lock.Some? ==> HoldsReqLock(s, s.reqs[t].lock.value, t);
  }

  /** An interrupter and the request t it has hold of. */
  lemma IntrKeepsHeldTally(s: State, i: nat, t: nat, s': State)
    requires ReqLocks(s) && i in s.intrs && MarkOk(s, s.intrs[i]) && IntrEnabled(s, i)
    requires t in s.reqs && CallsTally(s, t) && Target(s.intrs[i].pc) == Some(t)
    requires References(s) && Indexed(s) && s' == IntrApply(s, i)
    ensures t in s'.reqs && CallsTally(s', t)
  {
    hide IntrApply; hide IntrWrites; hide Marked; hide MarkOk; hide AtRegistration; hide IntrEnabled;
    var pc := s.intrs[i].pc;
    IntrChangesItself(s, i, s');
    IntrMarkStep(s, i, s');
    IntrTally(s.reqs[t], i, pc);
    SameAtRegistration(s.reqs[t], s'.reqs[t]);
    LockIsTheHolders(s, i, t);
    IntrAddsItsMark(s, i, t, s');
  }

  lemma LockIsTheHolders(s: State, i: nat, t: nat)
    requires ReqLocks(s) && i in s.intrs && t in s.reqs && Target(s.intrs[i].pc) == Some(t) && IntrEnabled(s, i)
    ensures var pc, lock := s.intrs[i].pc, s.reqs[t].lock;
            && (pc.WantSe? || pc.Marking? || pc.Calling? <==> lock == Some(Interrupter(i)))
            && (pc.WantReqLock? ==> lock.None?)
  {
    assert s.reqs[t].lock.Some? ==> HoldsReqLock(s, s.reqs[t].lock.value, t);
    var pc := s.intrs[i].pc;
    assert IntrHasReqLock(pc, t) <==> pc.WantSe? || pc.Marking? || pc.Calling?;
  }

  lemma IntrAddsItsMark(s: State, i: nat, t: nat, s': State)
    requires i in s.intrs && MarkOk(s, s.intrs[i]) && t in s.reqs && Target(s.intrs[i].pc) == Some(t)
    requires References(s) && Indexed(s) && s' == IntrApply(s, i) && t in s'.reqs && s'.reqs[t].regs == s.reqs[t].regs
    ensures |Marked(s', t)| == |Marked(s, t)| + if s.intrs[i].pc.Marking? && s.reqs[t].func.Some? then 1 else 0
  {
    hide IntrApply; hide IntrWrites; hide Marked; hide MarkFits; hide Found;
    IntrChangesItself(s, i, s');
    IntrMarkStep(s, i, s');
    if s.intrs[i].pc.Marking? && s.reqs[t].func.Some? {
      OneMoreMarked(s, s', i, t, s'.intrs[i]);
    } else {
      NoMoreMarked(s, s', i, t, s'.intrs[i]);
    }
  }

  lemma SameAtRegistration(q: Req, q': Req)
    requires q'.regs == q.regs && q'.early == q.early
    ensures AtRegistration(q') == AtRegistration(q)
  {
  }

  lemma IntrKeepsOtherTally(s: State, i: nat, t: nat, s': State)
    requires ReqLocks(s) && i in s.intrs && MarkOk(s, s.intrs[i]) && IntrEnabled(s, i)
    requires t in s.reqs && CallsTally(s, t) && Target(s.intrs[i].pc) != Some(t)
    requires References(s) && Indexed(s) && s' == IntrApply(s, i)
    ensures t in s'.reqs && CallsTally(s', t)
  {
    hide IntrApply; hide IntrWrites; hide Marked; hide CallsTally; hide Due; hide FindPending; hide MarkFits;
    hide AtRegistration;
    IntrChangesItself(s, i, s');
    IntrMarkStep(s, i, s');
    IntrTally(s.reqs[t], i, s.intrs[i].pc);
    SameAtRegistration(s.reqs[t], s'.reqs[t]);
    NoMoreMarked(s, s', i, t, s'.intrs[i]);
    DueElsewhere(s, s', i, t, s'.intrs[i]);
    SameTally(s, s', t);
  }

  lemma IntrKeepsFit(q: Req, q': Req, target: nat, m: Mark)
    requires FitsRequest(q, target, m)
    requires q'.unique == q.unique && q'.regs == q.regs && q'.pc == q.pc
    ensures FitsRequest(q', target, m)
  {
  }

  lemma InForceFits(q: Req, r: nat)
    requires RegsOk(q)
    ensures FitsRequest(q, q.unique, Mark(r, |q.regs|, q.func))
  {
    assert q.regs[..|q.regs|] == q.regs;
  }

  lemma IntrKeepsMarkOk(s: State, i: nat, s': State, j: nat)
    requires Tallied(s) && References(s) && Indexed(s) && i in s.intrs && s' == IntrApply(s, i) && j in s.intrs
    ensures j in s'.intrs && MarkOk(s', s'.intrs[j])
  {
    hide IntrApply; hide IntrWrites; hide FindPending; hide CallsTally; hide InterruptedByMarks; hide RegsOk;
    hide FitsRequest;
    IntrChangesItself(s, i, s');
    IntrMarkStep(s, i, s');
    forall t | t in s.reqs
      ensures s'.reqs[t].regs == s.reqs[t].regs && s'.reqs[t].unique == s.reqs[t].unique
      ensures s'.reqs[t].pc == s.reqs[t].pc
    {
      IntrTally(s.reqs[t], i, s.intrs[i].pc);
    }
    assert MarkOk(s, s.intrs[j]);
    var x' := s'.intrs[j];
    if j == i && s.intrs[i].pc.Marking? {
      InForceFits(s.reqs[s.intrs[i].pc.r], s.intrs[i].pc.r);
      IntrKeepsFit(s.reqs[x'.mark.value.req], s'.reqs[x'.mark.value.req], x'.target, x'.mark.value);
    } else if x'.mark.Some? {
      IntrKeepsFit(s.reqs[x'.mark.value.req], s'.reqs[x'.mark.value.req], x'.target, x'.mark.value);
    }
  }

  /** What is called is what was registered last. */
  lemma CalleeIsLast(s: State, i: nat)
    requires i in s.intrs && MarkOk(s, s.intrs[i]) && WillCall(s.intrs[i].pc)
    ensures s.intrs[i].pc.r in s.reqs && s.intrs[i].pc.func == Last(s.reqs[s.intrs[i].pc.r].regs)
  {
    var q := s.reqs[s.intrs[i].pc.r];
    assert q.regs[..|q.regs|] == q.regs;
  }

  /** Nobody marks a request that its owner is registering a callback for. */
  lemma NobodyMarksInRegCheck(s: State, i: nat, t: nat)
    requires ReqLocks(s) && i in s.intrs && t in s.reqs && s.reqs[t].pc.RegCheck?
    ensures s.intrs[i].pc != Marking(t)
  {
    assert OwnerHasReqLock(s.reqs[t].pc);
    assert IntrHasReqLock(Marking(t), t);
  }

  lemma IntrKeepsRegs(s: State, i: nat, t: nat, s': State)
    requires ReqLocks(s) && i in s.intrs && MarkOk(s, s.intrs[i]) && t in s.reqs && RegsOk(s.reqs[t])
    requires References(s) && Indexed(s) && s' == IntrApply(s, i)
    ensures t in s'.reqs && RegsOk(s'.reqs[t])
  {
    hide IntrApply; hide IntrWrites; hide FindPending; hide ReqLocks; hide MarkOk;
    IntrChangesItself(s, i, s');
    IntrTally(s.reqs[t], i, s.intrs[i].pc);
    if s.reqs[t].pc.RegCheck? {
      NobodyMarksInRegCheck(s, i, t);
    }
    if WillCall(s.intrs[i].pc) {
      CalleeIsLast(s, i);
    }
  }

  lemma IntrCarriesMarks(s: State, i: nat, s': State, t: nat, n: nat)
    requires References(s) && Indexed(s) && i in s.intrs && s' == IntrApply(s, i) && MarkOk(s, s.intrs[i])
    ensures SomeMarkedBefore(s', t, n) <==>
            SomeMarkedBefore(s, t, n) || (s.intrs[i].pc == Marking(t) && |s.reqs[t].regs| < n)
  {
    hide IntrApply; hide Found; hide IntrWrites; hide MarkFits;
    IntrChangesItself(s, i, s');
    IntrMarkStep(s, i, s');
    if j :| MarkedBefore(s, t, n, j) {
      assert MarkedBefore(s', t, n, j);
    }
    if s.intrs[i].pc == Marking(t) && |s.reqs[t].regs| < n {
      assert MarkedBefore(s', t, n, i);
    }
    if j :| MarkedBefore(s', t, n, j) {
      assert MarkedBefore(s, t, n, j) || (j == i && s.intrs[i].pc == Marking(t));
    }
  }

  lemma IntrKeepsInterrupted(s: State, i: nat, t: nat, s': State)
    requires i in s.intrs && MarkOk(s, s.intrs[i]) && t in s.reqs && InterruptedByMarks(s, t)
    requires References(s) && Indexed(s) && s' == IntrApply(s, i)
    ensures t in s'.reqs && InterruptedByMarks(s', t)
  {
    hide IntrApply; hide IntrWrites; hide FindPending; hide MarkOk; hide SomeMarkedBefore;
    IntrChangesItself(s, i, s');
    IntrTally(s.reqs[t], i, s.intrs[i].pc);
    IntrCarriesMarks(s, i, s', t, |s.reqs[t].regs|);
    IntrCarriesMarks(s, i, s', t, |s.reqs[t].regs| + 1);
  }

  lemma IntrKeepsTallied(s: State, i: nat)
    requires Inv(s) && Tallied(s) && i in s.intrs && IntrEnabled(s, i)
    ensures Tallied(IntrApply(s, i))
  {
    hide IntrApply; hide CallsTally; hide RegsOk; hide MarkOk; hide InterruptedByMarks; hide Target; hide IntrWrites;
    hide Found; hide Counted; hide Linked; hide ReqLocks; hide SeLock; hide Disposals;
    var s' := IntrApply(s, i);
    IntrChangesItself(s, i, s');
    forall t | t in s.reqs
      ensures RegsOk(s'.reqs[t]) && InterruptedByMarks(s', t) && CallsTally(s', t)
    {
      IntrKeepsRegs(s, i, t, s');
      IntrKeepsInterrupted(s, i, t, s');
      if Target(s.intrs[i].pc) == Some(t) {
        IntrKeepsHeldTally(s, i, t, s');
      } else {
        IntrKeepsOtherTally(s, i, t, s');
      }
    }
    forall j | j in s.intrs
      ensures MarkOk(s', s'.intrs[j])
    {
      IntrKeepsMarkOk(s, i, s', j);
    }
  }

  // ---------- the other steps ----------

  /** A step that leaves the interrupters alone and, of the requests there are, writes only pc's that
      register nothing yet. */
  ghost predicate OnlyChoices(s: State, s': State) {
    && s'.intrs == s.intrs
    && (forall t :: t in s.reqs ==>
          t in s'.reqs && s'.reqs[t] == s.reqs[t].(pc := s'.reqs[t].pc) && SameStanding(s.reqs[t].pc, s'.reqs[t].pc))
  }

  predicate SameStanding(pc: OwnerPc, pc': OwnerPc) {
    pc' == pc || (!pc.RegCheck? && !pc'.RegCheck? && OwnerHolds(pc) && OwnerHolds(pc') &&
                  !pc'.Arriving? && !pc'.Enqueuing?)
  }

  lemma ChoiceKeepsReq(s: State, s': State, t: nat)
    requires Tallied(s) && OnlyChoices(s, s') && t in s.reqs
    ensures RegsOk(s'.reqs[t]) && InterruptedByMarks(s', t) && CallsTally(s', t)
  {
    hide MarkOk; hide SomeMarkedBefore;
    assert RegsOk(s.reqs[t]) && InterruptedByMarks(s, t) && CallsTally(s, t);
    forall n
      ensures SomeMarkedBefore(s', t, n) == SomeMarkedBefore(s, t, n)
    {
      SameIntrsSameMarks(s, s', t, n);
    }
    assert Marked(s', t) == Marked(s, t);
  }

  lemma SameIntrsSameMarks(s: State, s': State, t: nat, n: nat)
    requires s'.intrs == s.intrs
    ensures SomeMarkedBefore(s', t, n) == SomeMarkedBefore(s, t, n)
  {
    assert forall i :: MarkedBefore(s', t, n, i) == MarkedBefore(s, t, n, i);
  }

  lemma ChoiceKeepsMarkOk(s: State, s': State, x: Intr)
    requires OnlyChoices(s, s') && MarkOk(s, x)
    ensures MarkOk(s', x)
  {
  }

  lemma ChoiceKeepsTallied(s: State, r: nat, pc: OwnerPc)
    requires Tallied(s) && r in s.reqs && SameStanding(s.reqs[r].pc, pc)
    ensures Tallied(s.(reqs := s.reqs[r := s.reqs[r].(pc := pc)]))
  {
    hide CallsTally; hide RegsOk; hide MarkOk; hide InterruptedByMarks;
    var s' := s.(reqs := s.reqs[r := s.reqs[r].(pc := pc)]);
    forall t | t in s.reqs
      ensures RegsOk(s'.reqs[t]) && InterruptedByMarks(s', t) && CallsTally(s', t)
    {
      ChoiceKeepsReq(s, s', t);
    }
    forall i | i in s.intrs
      ensures MarkOk(s', s'.intrs[i])
    {
      ChoiceKeepsMarkOk(s, s', s.intrs[i]);
    }
  }

  lemma NobodyKnows(s: State, r: nat)
    requires r in s.reqs && s.reqs[r] == NewReq(s.reqs[r].unique)
    requires forall i :: i in s.intrs && s.intrs[i].mark.Some? ==> s.intrs[i].mark.value.req != r
    ensures CallsTally(s, r) && RegsOk(s.reqs[r]) && InterruptedByMarks(s, r)
  {
    NoneMarked(s, r);
  }

  lemma NewRequestKeepsTallied(s: State, r: nat, unique: nat)
    requires Tallied(s) && r !in s.reqs
    ensures Tallied(s.(reqs := s.reqs[r := NewReq(unique)]))
  {
    hide CallsTally; hide RegsOk; hide InterruptedByMarks; hide FitsRequest;
    var s' := s.(reqs := s.reqs[r := NewReq(unique)]);
    NobodyKnows(s', r);
    forall t | t in s.reqs
      ensures RegsOk(s'.reqs[t]) && InterruptedByMarks(s', t) && CallsTally(s', t)
    {
      ChoiceKeepsReq(s, s', t);
    }
    forall i | i in s.intrs
      ensures MarkOk(s', s'.intrs[i])
    {
      ChoiceKeepsMarkOk(s, s', s.intrs[i]);
    }
  }

  /** A new interrupter has marked nothing and holds no lock. */
  lemma NewcomerIsIdle(s: State, i: nat, target: nat, t: nat)
    requires ReqLocks(s) && i !in s.intrs && t in s.reqs
    ensures var s' := s.(intrs := s.intrs[i := NewIntr(target)]);
            Marked(s', t) == Marked(s, t) && Due(s', t) == Due(s, t)
  {
    assert s.reqs[t].lock.Some? ==> HoldsReqLock(s, s.reqs[t].lock.value, t);
  }

  lemma NewcomerMarksNothing(s: State, i: nat, target: nat, t: nat)
    requires i !in s.intrs && t in s.reqs && InterruptedByMarks(s, t)
    ensures InterruptedByMarks(s.(intrs := s.intrs[i := NewIntr(target)]), t)
  {
    var s' := s.(intrs := s.intrs[i := NewIntr(target)]);
    assert forall j, n :: MarkedBefore(s', t, n, j) == MarkedBefore(s, t, n, j);
  }

  lemma NewInterruptKeepsTallied(s: State, i: nat, target: nat)
    requires ReqLocks(s) && Tallied(s) && i !in s.intrs
    ensures Tallied(s.(intrs := s.intrs[i := NewIntr(target)]))
  {
    hide Marked; hide Due; hide CallsTally; hide ReqLocks; hide InterruptedByMarks; hide RegsOk; hide FitsRequest;
    var s' := s.(intrs := s.intrs[i := NewIntr(target)]);
    forall t | t in s.reqs
      ensures InterruptedByMarks(s', t) && CallsTally(s', t)
    {
      NewcomerMarksNothing(s, i, target, t);
      NewcomerIsIdle(s, i, target, t);
      SameTally(s, s', t);
    }
  }

  lemma InvLocks(s: State)
    requires Inv(s)
    ensures ReqLocks(s)
  {
  }

  lemma StepKeepsTallied(s: State, step: Step)
    requires Inv(s) && Tallied(s) && Enabled(s, step) && Safe(s, step)
    ensures Tallied(Apply(s, step))
  {
    hide Inv; hide Tallied; hide OwnerApply; hide IntrApply; hide ReqLocks;
    InvLocks(s);
    match step
    case NewRequest(r, unique) => NewRequestKeepsTallied(s, r, unique);
    case NewInterrupt(i, target) => NewInterruptKeepsTallied(s, i, target);
    case Register(r, f) => ChoiceKeepsTallied(s, r, RegWantReq(f));
    case Reject(r) => ChoiceKeepsTallied(s, r, FreeWantSe);
    case Reply(r) => ChoiceKeepsTallied(s, r, FreeWantSe);
    case OwnerStep(r) => OwnerKeepsTallied(s, r);
    case IntrStep(i) => IntrKeepsTallied(s, i);
  }

  // ---------- whole runs ----------

  lemma RunStarts(run: seq<State>)
    requires IsRun(run)
    ensures Tallied(run[0])
  {
  }

  lemma TheStep(run: seq<State>, k: nat) returns (step: Step)
    requires IsRun(run) && 0 < k < |run| && Inv(run[k - 1])
    ensures Enabled(run[k - 1], step) && Safe(run[k - 1], step) && run[k] == Apply(run[k - 1], step)
  {
    hide Inv; hide Enabled; hide Safe; hide Apply;
    assert Moves(run[k - 1], run[k]);
    step :| Enabled(run[k - 1], step) && (Safe(run[k - 1], step) ==> run[k] == Apply(run[k - 1], step));
    StepIsSafe(run[k - 1], step);
  }

  lemma {:induction false} RunKeepsTallied(run: seq<State>, k: nat)
    requires IsRun(run) && k < |run|
    ensures Tallied(run[k])
  {
    hide IsRun; hide Inv; hide Tallied; hide Enabled; hide Safe; hide Apply;
    if k == 0 {
      RunStarts(run);
    } else {
      RunKeepsTallied(run, k - 1);
      RunKeepsInv(run, k - 1);
      var step := TheStep(run, k);
      StepKeepsTallied(run[k - 1], step);
    }
  }

  /** The callbacks that the steps register for r, in order. */
  function Registered(steps: seq<Step>, r: nat): seq<Option<nat>> {
    if steps == [] then []
    else
      var last := steps[|steps| - 1];
      Registered(steps[..|steps| - 1], r) + if last.Register? && last.r == r then [last.f] else []
  }

  /** The registration that the owner is in the middle of and has not written down yet. */
  function UnderWay(pc: OwnerPc): seq<Option<nat>> {
    match pc
    case RegWantReq(f) => [f]
    case RegWantSe(f) => [f]
    case RegSetting(f) => [f]
    case _ => []
  }

  function SoFar(s: State, r: nat): seq<Option<nat>> {
    if r in s.reqs then s.reqs[r].regs + UnderWay(s.reqs[r].pc) else []
  }

  lemma OwnerGoesOn(q: Req, r: nat, matched: bool)
    ensures OwnerWrites(q, r, matched).regs + UnderWay(OwnerWrites(q, r, matched).pc) == q.regs + UnderWay(q.pc)
  {
    hide OwnerWrites;
    OwnerRegisters(q, r, matched);
    OwnerStaysUnderWay(q, r, matched);
  }

  lemma OwnerStaysUnderWay(q: Req, r: nat, matched: bool)
    ensures UnderWay(OwnerWrites(q, r, matched).pc) == if q.pc.RegSetting? then [] else UnderWay(q.pc)
  {
  }

  lemma IntrGoesOn(s: State, i: nat, s': State, r: nat)
    requires References(s) && Indexed(s) && i in s.intrs && s' == IntrApply(s, i)
    ensures SoFar(s', r) == SoFar(s, r)
  {
    hide IntrApply; hide IntrWrites; hide FindPending;
    IntrChangesItself(s, i, s');
    if r in s.reqs {
      IntrTally(s.reqs[r], i, s.intrs[i].pc);
    }
  }

  /** A registration is neither lost nor changed on its way. */
  lemma StepRegisters(s: State, step: Step, r: nat)
    requires Inv(s) && Enabled(s, step) && Safe(s, step)
    ensures SoFar(Apply(s, step), r) == SoFar(s, r) + if step.Register? && step.r == r then [step.f] else []
  {
    hide Inv; hide OwnerApply; hide IntrApply; hide OwnerWrites; hide FindQueued;
    R.InvIsIndexed(s);
    match step
    case OwnerStep(t) =>
      OwnerChangesItself(s, t, Apply(s, step));
      OwnerGoesOn(s.reqs[t], t, s.reqs[t].pc.Enqueuing? && FindQueued(s, s.reqs[t].unique, 0) < |s.queued|);
    case IntrStep(i) => IntrGoesOn(s, i, Apply(s, step), r);
    case _ =>
  }

  lemma {:induction false} RegistrationsAreRecorded(run: seq<State>, steps: seq<Step>, r: nat)
    requires R.Trace(run, steps) && run[0] == START
    ensures SoFar(run[|steps|], r) == Registered(steps, r)
    decreases |steps|
  {
    hide Inv; hide Enabled; hide Safe; hide SoFar; hide Apply;
    if steps == [] {
      NothingYet(run[0], r);
    } else {
      var n := |steps| - 1;
      R.TraceFront(run, steps);
      RegistrationsAreRecorded(run[..n + 1], steps[..n], r);
      R.TraceIsGood(run, steps, n);
      assert R.Taken(run[n], steps[n], run[n + 1]);
      R.TakenKeepsInv(run[n], steps[n], run[n + 1]);
      StepRegisters(run[n], steps[n], r);
    }
  }

  lemma NothingYet(s: State, r: nat)
    requires s == START
    ensures SoFar(s, r) == []
  {
  }

  /** The INTERRUPTs that marked r between its n-th registration and the next. */
  ghost function MarkedAfter(s: State, r: nat, n: nat): set<nat> {
    set i | i in s.intrs && s.intrs[i].mark.Some? && s.intrs[i].mark.value.req == r && s.intrs[i].mark.value.regs == n
  }

  lemma MarkedIsAfter(s: State, r: nat)
    requires r in s.reqs && OwnerHolds(s.reqs[r].pc) && Last(s.reqs[r].regs).Some?
    requires forall i :: i in s.intrs ==> MarkOk(s, s.intrs[i])
    ensures Marked(s, r) == MarkedAfter(s, r, |s.reqs[r].regs|)
  {
    var q := s.reqs[r];
    assert q.regs[..|q.regs|] == q.regs;
    forall i | i in MarkedAfter(s, r, |q.regs|)
      ensures i in Marked(s, r)
    {
      assert MarkOk(s, s.intrs[i]);
    }
  }

  /** In every run from the start the record of a request follows what its owner registered: while the
      owner is at work on it or about to free it, the callback in force is the one registered last. */
  lemma LastRegistrationIsInForce(run: seq<State>, steps: seq<Step>, r: nat)
    requires R.Trace(run, steps) && run[0] == START && r in run[|steps|].reqs
    ensures var q, fs := run[|steps|].reqs[r], Registered(steps, r);
            q.pc.Idle? || q.pc.RegCheck? || q.pc.FreeWantSe? || q.pc.FreeLocked? ==> q.regs == fs && q.func == Last(fs)
  {
    R.TraceIsRun(run, steps);
    RunKeepsTallied(run, |steps|);
    RegistrationsAreRecorded(run, steps, r);
    assert RegsOk(run[|steps|].reqs[r]);
  }

  /** The calls made since the last registration, while nobody is inside the request lock and the owner
      has not given the request back: it is the callback f registered last that is called, once by each
      INTERRUPT that has marked the request since, and once more if one had marked it before. So if f is
      a callback and any INTERRUPT has marked the request, early or late, f has been called. */
  lemma RegisteredCallbackIsCalled(run: seq<State>, steps: seq<Step>, r: nat)
    requires R.Trace(run, steps) && run[0] == START && r in run[|steps|].reqs
    requires run[|steps|].reqs[r].lock.None?
    requires var pc := run[|steps|].reqs[r].pc; pc.Idle? || pc.FreeWantSe? || pc.FreeLocked?
    ensures var s, fs := run[|steps|], Registered(steps, r);
            var q, f := s.reqs[r], Last(fs);
            && (f.None? ==> q.calls == [])
            && (f.Some? ==>
                  && (forall c :: c in q.calls ==> c == f.value)
                  && |q.calls| == |MarkedAfter(s, r, |fs|)| + (if SomeMarkedBefore(s, r, |fs|) then 1 else 0)
                  && (q.interrupted ==> q.calls != []))
  {
    hide Tallied; hide MarkedAfter; hide Registered; hide SomeMarkedBefore; hide Marked;
    LastRegistrationIsInForce(run, steps, r);
    R.TraceIsRun(run, steps);
    RunKeepsTallied(run, |steps|);
    TalliedParts(run[|steps|], r);
    assert run[|steps|].reqs[r].calls != [] ==> run[|steps|].reqs[r].calls[0] in run[|steps|].reqs[r].calls;
    if Last(Registered(steps, r)).Some? {
      MarkedIsAfter(run[|steps|], r);
      if run[|steps|].reqs[r].interrupted {
        SomeMarkCounts(run[|steps|], r);
      }
    }
  }

  lemma TalliedParts(s: State, r: nat)
    requires Tallied(s) && r in s.reqs
    ensures RegsOk(s.reqs[r]) && InterruptedByMarks(s, r) && CallsTally(s, r)
    ensures forall i :: i in s.intrs ==> MarkOk(s, s.intrs[i])
  {
  }

  lemma SomeMarkCounts(s: State, r: nat)
    requires r in s.reqs && InterruptedByMarks(s, r) && s.reqs[r].interrupted
    ensures SomeMarkedBefore(s, r, |s.reqs[r].regs|) || MarkedAfter(s, r, |s.reqs[r].regs|) != {}
  {
    var n := |s.reqs[r].regs|;
    var i :| MarkedBefore(s, r, n + 1, i);
    assert MarkedBefore(s, r, n, i) || i in MarkedAfter(s, r, n);
  }

  /** In every run a request is interrupted exactly when an INTERRUPT that aims at it has marked
      it. */
  lemma InterruptedIffMarked(run: seq<State>, k: nat, r: nat)
    requires IsRun(run) && k < |run| && r in run[k].reqs
    ensures var s := run[k];
            s.reqs[r].interrupted <==>
            exists i :: i in s.intrs && s.intrs[i].mark.Some? && s.intrs[i].mark.value.req == r &&
                        s.intrs[i].target == s.reqs[r].unique
  {
    RunKeepsTallied(run, k);
    var s := run[k];
    assert InterruptedByMarks(s, r);
    var n := |s.reqs[r].regs|;
    if s.reqs[r].interrupted {
      var i :| MarkedBefore(s, r, n + 1, i);
      assert MarkOk(s, s.intrs[i]);
    }
    if i :| i in s.intrs && s.intrs[i].mark.Some? && s.intrs[i].mark.value.req == r {
      assert MarkOk(s, s.intrs[i]);
      assert MarkedBefore(s, r, n + 1, i);
    }
  }

  /** Interrupt i has hold of r, or has marked it and is done. */
  ghost predicate HoldsOrMarked(s: State, i: nat, r: nat) {
    && i in s.intrs
    && (Target(s.intrs[i].pc) == Some(r) ||
        (s.intrs[i].pc.Disposed? && s.intrs[i].mark.Some? && s.intrs[i].mark.value.req == r))
  }

  lemma StepKeepsHeld(s: State, step: Step, i: nat, r: nat)
    requires Inv(s) && Tallied(s) && Enabled(s, step) && Safe(s, step) && HoldsOrMarked(s, i, r)
    ensures HoldsOrMarked(Apply(s, step), i, r)
  {
    hide Inv; hide OwnerApply; hide IntrApply; hide FindQueued; hide MarkFits; hide CallsTally; hide RegsOk;
    hide InterruptedByMarks;
    R.InvIsIndexed(s);
    match step
    case OwnerStep(t) => OwnerMarks(s, t, Apply(s, step));
    case IntrStep(j) =>
      IntrChangesItself(s, j, Apply(s, step));
      IntrMarkStep(s, j, Apply(s, step));
      assert MarkOk(s, s.intrs[i]);
    case _ =>
  }

  lemma {:induction false} RunKeepsHeld(run: seq<State>, k: nat, m: nat, i: nat, r: nat)
    requires IsRun(run) && k <= m < |run| && HoldsOrMarked(run[k], i, r)
    ensures HoldsOrMarked(run[m], i, r)
    decreases m
  {
    hide IsRun; hide Inv; hide Tallied; hide Enabled; hide Safe; hide Apply; hide HoldsOrMarked;
    if k < m {
      RunKeepsHeld(run, k, m - 1, i, r);
      RunKeepsInv(run, m - 1);
      RunKeepsTallied(run, m - 1);
      var step := TheStep(run, m);
      StepKeepsHeld(run[m - 1], step, i, r);
    }
  }

  /** An INTERRUPT that once had hold of a request has marked it by the time it is done with, whatever
      happened to the request in between. */
  lemma HeldIsMarked(run: seq<State>, k: nat, m: nat, i: nat, r: nat)
    requires IsRun(run) && k <= m < |run|
    requires i in run[k].intrs && Target(run[k].intrs[i].pc) == Some(r)
    ensures i in run[m].intrs
    ensures run[m].intrs[i].pc.Disposed? ==>
              && run[m].intrs[i].mark.Some? && run[m].intrs[i].mark.value.req == r
              && r in run[m].reqs && run[m].reqs[r].interrupted
  {
    hide Inv; hide CallsTally; hide RegsOk; hide InterruptedByMarks;
    RunKeepsHeld(run, k, m, i, r);
    RunKeepsTallied(run, m);
    assert MarkOk(run[m], run[m].intrs[i]);
    if run[m].intrs[i].pc.Disposed? {
      InterruptedIffMarked(run, m, r);
    }
  }
}
