/** The life of FUSE requests under concurrent interrupts.

    A request is born with one reference, held by its owner (the thread that will reply).
    Threads that process INTERRUPT messages look the target up under the session lock,
    take a reference, *drop* the session lock, and then mark the request under
    request lock + session lock, call the registered callback, and give the reference
    back. Whoever brings the counter to zero destroys the request.

    Every acquisition of a lock is a step of its own, so is every stretch of code between
    two lock operations; any number of owners and interrupters interleave. */
module InterruptProtocol {
  import opened Prelude

  datatype Actor = Owner(req: nat) | Interrupter(intr: nat)

  datatype OwnerPc =
    | Arriving                          // allocated, not yet in the session list
    | Enqueuing                         // holds the session lock
    | Idle                              // in the session list, being worked on
    | RegWantReq(f: Option<nat>)        // registering a callback
    | RegWantSe(f: Option<nat>)         // holds the request lock
    | RegSetting(f: Option<nat>)        // holds both locks
    | RegCheck(f: Option<nat>)          // holds the request lock
    | FreeWantSe                        // replied, about to free
    | FreeLocked                        // holds the session lock
    | FreeDecide(left: int)             // unlocked again, knows the counter it left
    | Done

  datatype IntrPc =
    | Received
    | Searching                         // holds the session lock
    | WantReqLock(r: nat)               // holds a reference, no lock
    | WantSe(r: nat)                    // holds the request lock
    | Marking(r: nat)                   // holds both locks
    | Calling(r: nat, func: Option<nat>) // holds the request lock
    | WantSeDrop(r: nat)                // holds no lock
    | Dropping(r: nat)                  // holds the session lock
    | Queued                            // waiting in the session's interrupt list
    | Evicted                           // taken off the list, to be answered EAGAIN
    | Disposed

  /** linked: the request is in the session list; regs: the callbacks registered so far (None is a
      registration too, of no callback); calls: what has been called since the last of them; early:
      whether the request had been interrupted before the last of them. */
  datatype Req = Req(unique: nat, ctr: int, linked: bool, interrupted: bool, func: Option<nat>,
                     regs: seq<Option<nat>>, calls: seq<nat>, early: bool,
                     lock: Option<Actor>, destroys: nat, pc: OwnerPc)

  /** An interrupt marks a request after so many registrations and finds the callback func. */
  datatype Mark = Mark(req: nat, regs: nat, func: Option<nat>)

  datatype Intr = Intr(target: nat, pc: IntrPc, disposals: nat, mark: Option<Mark>)

  function NewReq(unique: nat): Req {
    Req(unique, 1, false, false, None, [], [], false, None, 0, Arriving)
  }

  function NewIntr(target: nat): Intr {
    Intr(target, Received, 0, None)
  }

  datatype State = State(reqs: map<nat, Req>, intrs: map<nat, Intr>,
                         pending: seq<nat>, queued: seq<nat>, se: Option<Actor>)

  datatype Step =
    | NewRequest(r: nat, unique: nat)
    | NewInterrupt(i: nat, target: nat)
    | Register(r: nat, f: Option<nat>)
    | Reject(r: nat)
    | Reply(r: nat)
    | OwnerStep(r: nat)
    | IntrStep(i: nat)

  const START := State(map[], map[], [], [], None)

  /** The lists hold requests and interrupts that exist. */
  ghost predicate Indexed(s: State) {
    && (forall r :: r in s.pending ==> r in s.reqs)
    && (forall i :: i in s.queued ==> i in s.intrs)
  }

  // ---------- the two list scans ----------

  /** The first pending request with the given unique number, or |s.pending|. */
  function FindPending(s: State, unique: nat, from: nat): (k: nat)
    requires from <= |s.pending|
    requires forall r :: r in s.pending ==> r in s.reqs
    ensures from <= k <= |s.pending|
    ensures k < |s.pending| ==> s.reqs[s.pending[k]].unique == unique
    ensures forall j :: from <= j < k ==> s.reqs[s.pending[j]].unique != unique
    decreases |s.pending| - from
  {
    if from == |s.pending| || s.reqs[s.pending[from]].unique == unique then from
    else FindPending(s, unique, from + 1)
  }

  /** The first queued interrupt with the given target, or |s.queued|. */
  function FindQueued(s: State, target: nat, from: nat): (k: nat)
    requires from <= |s.queued|
    requires forall i :: i in s.queued ==> i in s.intrs
    ensures from <= k <= |s.queued|
    ensures k < |s.queued| ==> s.intrs[s.queued[k]].target == target
    ensures forall j :: from <= j < k ==> s.intrs[s.queued[j]].target != target
    decreases |s.queued| - from
  {
    if from == |s.queued| || s.intrs[s.queued[from]].target == target then from
    else FindQueued(s, target, from + 1)
  }

  // ---------- steps ----------

  predicate OwnerEnabled(s: State, r: nat)
    requires r in s.reqs
  {
    match s.reqs[r].pc
    case Arriving => s.se.None?
    case Enqueuing => true
    case Idle => false
    case RegWantReq(_) => s.reqs[r].lock.None?
    case RegWantSe(_) => s.se.None?
    case RegSetting(_) => true
    case RegCheck(_) => true
    case FreeWantSe => s.se.None?
    case FreeLocked => true
    case FreeDecide(_) => true
    case Done => false
  }

  predicate IntrEnabled(s: State, i: nat)
    requires i in s.intrs
  {
    match s.intrs[i].pc
    case Received => s.se.None?
    case Searching => true
    case WantReqLock(r) => r in s.reqs ==> s.reqs[r].lock.None?
    case WantSe(_) => s.se.None?
    case Marking(_) => true
    case Calling(_, _) => true
    case WantSeDrop(_) => s.se.None?
    case Dropping(_) => true
    case Queued => false
    case Evicted => s.se.None?
    case Disposed => false
  }

  predicate Enabled(s: State, step: Step) {
    match step
    case NewRequest(r, _) => r !in s.reqs
    case NewInterrupt(i, _) => i !in s.intrs
    case Register(r, _) => r in s.reqs && s.reqs[r].pc.Idle?
    case Reject(r) => r in s.reqs && s.reqs[r].pc.Arriving?
    case Reply(r) => r in s.reqs && s.reqs[r].pc.Idle?
    case OwnerStep(r) => r in s.reqs && OwnerEnabled(s, r)
    case IntrStep(i) => i in s.intrs && IntrEnabled(s, i)
  }

  /** The request an interrupter holds a reference to. */
  function Target(pc: IntrPc): Option<nat> {
    match pc
    case WantReqLock(r) => Some(r)
    case WantSe(r) => Some(r)
    case Marking(r) => Some(r)
    case Calling(r, _) => Some(r)
    case WantSeDrop(r) => Some(r)
    case Dropping(r) => Some(r)
    case _ => None
  }

  /** The requests whose memory a step reads or writes. */
  function Touched(s: State, step: Step): set<nat>
    requires Enabled(s, step)
  {
    match step
    case NewRequest(_, _) => {}
    case NewInterrupt(_, _) => {}
    case Register(r, _) => {r}
    case Reject(r) => {r}
    case Reply(r) => {r}
    case OwnerStep(r) =>
      // After the session lock is released, fuse_free_req looks at the request again
      // only when the counter it left was zero. Linking a request touches its neighbours.
      if s.reqs[r].pc.FreeDecide? && s.reqs[r].pc.left != 0 then {}
      else if s.reqs[r].pc.Enqueuing? || s.reqs[r].pc.FreeLocked? then {r} + set p | p in s.pending
      else {r}
    case IntrStep(i) =>
      if s.intrs[i].pc.Searching? then set p | p in s.pending
      else if Target(s.intrs[i].pc).Some? then {Target(s.intrs[i].pc).value}
      else {}
  }

  /** No step may touch memory that has been freed, nor a list node that does not exist. */
  ghost predicate Safe(s: State, step: Step)
    requires Enabled(s, step)
  {
    && (forall r :: r in Touched(s, step) ==> r in s.reqs && s.reqs[r].destroys == 0)
    && Indexed(s)
  }

  function Dispose(x: Intr): Intr {
    x.(pc := Disposed, disposals := x.disposals + 1)
  }

  function Destroy(q: Req): Req {
    q.(destroys := q.destroys + 1)
  }

  /** list_del_req: unlinking a request that is not linked changes nothing. */
  ghost function Unlink(list: seq<nat>, r: nat): (out: seq<nat>)
    ensures r !in list ==> out == list
  {
    if k :| 0 <= k < |list| && list[k] == r then RemoveAt(list, k) else list
  }

  /** A request that has come into the session list. */
  function TakenIn(q: Req, matched: bool): Req {
    q.(linked := true, interrupted := q.interrupted || matched, pc := Idle)
  }

  /** What a step of its owner makes of the request; matched: a queued interrupt aims at it. */
  function OwnerWrites(q: Req, r: nat, matched: bool): Req {
    match q.pc
    case Arriving => q.(pc := Enqueuing)
    case Enqueuing => TakenIn(q, matched)
    case RegWantReq(f) => q.(pc := RegWantSe(f), lock := Some(Owner(r)))
    case RegWantSe(f) => q.(pc := RegSetting(f))
    case RegSetting(f) =>
      q.(pc := RegCheck(f), func := f, regs := q.regs + [f], calls := [], early := q.interrupted)
    case RegCheck(f) =>
      q.(pc := Idle, lock := None, calls := if q.interrupted && f.Some? then q.calls + [f.value] else q.calls)
    case FreeWantSe => q.(pc := FreeLocked)
    case FreeLocked => q.(pc := FreeDecide(q.ctr - 1), linked := false, ctr := q.ctr - 1, func := None)
    case FreeDecide(left) => (if left == 0 then Destroy(q) else q).(pc := Done)
    case Idle => q
    case Done => q
  }

  /** check_interrupt followed by list_add_req: the arriving request consumes the queued
      interrupt aimed at it, or else the oldest queued interrupt is taken off to be
      answered EAGAIN. The request goes to the end of the session list. */
  ghost function Enqueue(s: State, r: nat): State
    requires r in s.reqs && (forall i :: i in s.queued ==> i in s.intrs)
  {
    var k := FindQueued(s, s.reqs[r].unique, 0);
    var matched := k < |s.queued|;
    var linked := s.(reqs := s.reqs[r := TakenIn(s.reqs[r], matched)], pending := s.pending + [r], se := None);
    if s.queued == [] then linked
    else
      var at := if matched then k else 0;
      var i := s.queued[at];
      var x := if matched then Dispose(s.intrs[i]).(mark := Some(Mark(r, 0, None))) else s.intrs[i].(pc := Evicted);
      linked.(intrs := s.intrs[i := x], queued := RemoveAt(s.queued, at))
  }

  ghost function OwnerApply(s: State, r: nat): State
    requires r in s.reqs && (forall i :: i in s.queued ==> i in s.intrs)
  {
    if s.reqs[r].pc.Enqueuing? then Enqueue(s, r)
    else
      var t := s.(reqs := s.reqs[r := OwnerWrites(s.reqs[r], r, false)]);
      match s.reqs[r].pc
      case Arriving => t.(se := Some(Owner(r)))
      case RegWantSe(_) => t.(se := Some(Owner(r)))
      case RegSetting(_) => t.(se := None)
      case FreeWantSe => t.(se := Some(Owner(r)))
      case FreeLocked => t.(pending := Unlink(s.pending, r), se := None)
      case _ => t
  }

  /** The request an interrupter's step works on: the one it holds, or the one its search finds. */
  function Found(s: State, x: Intr): Option<nat>
    requires Indexed(s)
  {
    if x.pc.Searching? then
      var k := FindPending(s, x.target, 0);
      if k < |s.pending| then Some(s.pending[k]) else None
    else Target(x.pc)
  }

  /** What a step of interrupter i makes of that request. */
  function IntrWrites(q: Req, i: nat, pc: IntrPc): Req {
    match pc
    case Searching => q.(ctr := q.ctr + 1)
    case WantReqLock(_) => q.(lock := Some(Interrupter(i)))
    case Marking(_) => q.(interrupted := true)
    case Calling(_, func) => q.(lock := None, calls := if func.Some? then q.calls + [func.value] else q.calls)
    case Dropping(_) => if q.ctr == 1 then Destroy(q.(ctr := 0)) else q.(ctr := q.ctr - 1)
    case _ => q
  }

  ghost function IntrApply(s: State, i: nat): State
    requires i in s.intrs && (Target(s.intrs[i].pc).Some? ==> Target(s.intrs[i].pc).value in s.reqs)
    requires Indexed(s)
  {
    var x := s.intrs[i];
    var found := Found(s, x);
    var t := if found.None? then s
             else s.(reqs := s.reqs[found.value := IntrWrites(s.reqs[found.value], i, x.pc)]);
    match x.pc
    case Received => t.(intrs := s.intrs[i := x.(pc := Searching)], se := Some(Interrupter(i)))
    case Searching =>
      if found.Some? then
        t.(intrs := s.intrs[i := x.(pc := WantReqLock(found.value))], se := None)
      else if FindQueued(s, x.target, 0) < |s.queued| then
        t.(intrs := s.intrs[i := Dispose(x)], se := None)
      else
        t.(intrs := s.intrs[i := x.(pc := Queued)], queued := s.queued + [i], se := None)
    case WantReqLock(r) => t.(intrs := s.intrs[i := x.(pc := WantSe(r))])
    case WantSe(r) => t.(intrs := s.intrs[i := x.(pc := Marking(r))], se := Some(Interrupter(i)))
    case Marking(r) =>
      var mark := Some(Mark(r, |s.reqs[r].regs|, s.reqs[r].func));
      t.(intrs := s.intrs[i := x.(pc := Calling(r, s.reqs[r].func), mark := mark)], se := None)
    case Calling(r, _) => t.(intrs := s.intrs[i := x.(pc := WantSeDrop(r))])
    case WantSeDrop(r) => t.(intrs := s.intrs[i := x.(pc := Dropping(r))], se := Some(Interrupter(i)))
    case Dropping(_) => t.(intrs := s.intrs[i := Dispose(x)], se := None)
    // fuse_reply_err on a request that is in no list, with one reference
    case Evicted => t.(intrs := s.intrs[i := Dispose(x)])
    case Queued => t
    case Disposed => t
  }

  ghost function Apply(s: State, step: Step): State
    requires Enabled(s, step) && Safe(s, step)
  {
    match step
    case NewRequest(r, unique) => s.(reqs := s.reqs[r := NewReq(unique)])
    case NewInterrupt(i, target) => s.(intrs := s.intrs[i := NewIntr(target)])
    case Register(r, f) => s.(reqs := s.reqs[r := s.reqs[r].(pc := RegWantReq(f))])
    // A malformed or forbidden request is answered before it is ever linked.
    case Reject(r) => s.(reqs := s.reqs[r := s.reqs[r].(pc := FreeWantSe)])
    case Reply(r) => s.(reqs := s.reqs[r := s.reqs[r].(pc := FreeWantSe)])
    case OwnerStep(r) => OwnerApply(s, r)
    case IntrStep(i) => IntrApply(s, i)
  }

  // ---------- the invariant ----------

  /** The owner has not given its reference back. */
  predicate OwnerHolds(pc: OwnerPc) {
    !pc.FreeDecide? && !pc.Done?
  }

  /** Where in its life a request may be in the session list; a rejected request never is. */
  predicate MayBeLinked(pc: OwnerPc) {
    OwnerHolds(pc) && !pc.Arriving? && !pc.Enqueuing?
  }

  predicate OwnerHasReqLock(pc: OwnerPc) {
    pc.RegWantSe? || pc.RegSetting? || pc.RegCheck?
  }

  predicate OwnerHasSe(pc: OwnerPc) {
    pc.Enqueuing? || pc.RegSetting? || pc.FreeLocked?
  }

  predicate IntrHasReqLock(pc: IntrPc, r: nat) {
    match pc
    case WantSe(t) => t == r
    case Marking(t) => t == r
    case Calling(t, _) => t == r
    case _ => false
  }

  predicate IntrHasSe(pc: IntrPc) {
    pc.Searching? || pc.Marking? || pc.Dropping?
  }

  ghost function Holders(s: State, r: nat): set<nat> {
    set i | i in s.intrs && Target(s.intrs[i].pc) == Some(r)
  }

  ghost predicate Counted(s: State) {
    forall r :: r in s.reqs ==> ReqCounted(s, r)
  }

  /** The counter counts the references, and the request is gone exactly when it is zero
      (the owner that left zero behind is about to destroy it). */
  ghost predicate ReqCounted(s: State, r: nat)
    requires r in s.reqs
  {
    var q := s.reqs[r];
    && q.ctr == |Holders(s, r)| + (if OwnerHolds(q.pc) then 1 else 0)
    && q.destroys == (if q.ctr == 0 && q.pc != FreeDecide(0) then 1 else 0)
    && (q.pc == FreeDecide(0) ==> q.ctr == 0)
  }

  ghost predicate References(s: State) {
    forall i :: i in s.intrs && Target(s.intrs[i].pc).Some? ==> Target(s.intrs[i].pc).value in s.reqs
  }

  ghost predicate Linked(s: State) {
    && NoDuplicates(s.pending)
    && (forall r :: r in s.pending <==> r in s.reqs && s.reqs[r].linked)
    && (forall r :: r in s.reqs && s.reqs[r].linked ==> MayBeLinked(s.reqs[r].pc))
  }

  ghost predicate HoldsReqLock(s: State, a: Actor, r: nat)
    requires r in s.reqs
  {
    match a
    case Owner(t) => t == r && OwnerHasReqLock(s.reqs[r].pc)
    case Interrupter(i) => i in s.intrs && IntrHasReqLock(s.intrs[i].pc, r)
  }

  ghost predicate ReqLocks(s: State) {
    && (forall r :: r in s.reqs && s.reqs[r].lock.Some? ==> HoldsReqLock(s, s.reqs[r].lock.value, r))
    && (forall r :: r in s.reqs && OwnerHasReqLock(s.reqs[r].pc) ==> s.reqs[r].lock == Some(Owner(r)))
    && (forall i, r :: i in s.intrs && r in s.reqs && IntrHasReqLock(s.intrs[i].pc, r) ==>
          s.reqs[r].lock == Some(Interrupter(i)))
  }

  ghost predicate SeLock(s: State) {
    && (s.se.Some? ==>
          match s.se.value
          case Owner(r) => r in s.reqs && OwnerHasSe(s.reqs[r].pc)
          case Interrupter(i) => i in s.intrs && IntrHasSe(s.intrs[i].pc))
    && (forall r :: r in s.reqs && OwnerHasSe(s.reqs[r].pc) ==> s.se == Some(Owner(r)))
    && (forall i :: i in s.intrs && IntrHasSe(s.intrs[i].pc) ==> s.se == Some(Interrupter(i)))
  }

  ghost predicate Queue(s: State) {
    && Indexed(s)
    && NoDuplicates(s.queued)
    && (forall i :: i in s.queued <==> i in s.intrs && s.intrs[i].pc.Queued?)
    && (forall j, k :: 0 <= j < k < |s.queued| ==>
          s.intrs[s.queued[j]].target != s.intrs[s.queued[k]].target)
    && (forall i, r :: i in s.queued && r in s.pending ==> s.intrs[i].target != s.reqs[r].unique)
  }

  ghost predicate Disposals(s: State) {
    forall i :: i in s.intrs ==> s.intrs[i].disposals == (if s.intrs[i].pc.Disposed? then 1 else 0)
  }

  ghost predicate Inv(s: State) {
    && Counted(s) && References(s) && Linked(s) && ReqLocks(s) && SeLock(s)
    && Queue(s) && Disposals(s)
  }

  // ---------- every step keeps it ----------

  /** In a good state no step touches freed memory. */
  lemma StepIsSafe(s: State, step: Step)
    requires Inv(s) && Enabled(s, step)
    ensures Safe(s, step)
  {
    forall r | r in Touched(s, step)
      ensures r in s.reqs && s.reqs[r].destroys == 0
    {
      if r in s.reqs {
        assert ReqCounted(s, r);
      }
      match step
      case IntrStep(i) =>
        if Target(s.intrs[i].pc) == Some(r) {
          assert i in Holders(s, r);
        }
      case _ =>
    }
  }

  lemma ReqWriteKeepsCounted(s: State, r: nat, q: Req)
    requires Counted(s) && References(s)
    requires if r in s.reqs then OwnerHolds(s.reqs[r].pc) && OwnerHolds(q.pc) &&
                                 q.ctr == s.reqs[r].ctr && q.destroys == s.reqs[r].destroys
             else q.ctr == 1 && OwnerHolds(q.pc) && q.destroys == 0
    ensures Counted(s.(reqs := s.reqs[r := q])) && References(s.(reqs := s.reqs[r := q]))
  {
    var s' := s.(reqs := s.reqs[r := q]);
    forall t | t in s'.reqs
      ensures ReqCounted(s', t)
    {
      assert Holders(s', t) == Holders(s, t);
      if t in s.reqs {
        assert ReqCounted(s, t);
      } else if i :| i in Holders(s, t) {
        assert false;
      }
    }
  }

  lemma ReqWriteKeepsLinked(s: State, r: nat, q: Req)
    requires Linked(s) && Queue(s)
    requires if r in s.reqs then q.unique == s.reqs[r].unique && q.linked == s.reqs[r].linked && MayBeLinked(q.pc)
             else !q.linked
    ensures Linked(s.(reqs := s.reqs[r := q])) && Queue(s.(reqs := s.reqs[r := q]))
  {
    var s' := s.(reqs := s.reqs[r := q]);
    forall t
      ensures t in s'.pending <==> t in s'.reqs && s'.reqs[t].linked
    {
      assert t in s.pending <==> t in s.reqs && s.reqs[t].linked;
    }
  }

  lemma ReqWriteKeepsLocks(s: State, r: nat, q: Req)
    requires ReqLocks(s) && SeLock(s) && References(s)
    requires !OwnerHasReqLock(q.pc) && !OwnerHasSe(q.pc)
    requires if r in s.reqs then q.lock == s.reqs[r].lock && !OwnerHasReqLock(s.reqs[r].pc) && !OwnerHasSe(s.reqs[r].pc)
             else q.lock.None?
    ensures ReqLocks(s.(reqs := s.reqs[r := q])) && SeLock(s.(reqs := s.reqs[r := q]))
  {
    var s' := s.(reqs := s.reqs[r := q]);
    forall t | t in s'.reqs && s'.reqs[t].lock.Some?
      ensures HoldsReqLock(s', s'.reqs[t].lock.value, t)
    {
      assert HoldsReqLock(s, s.reqs[t].lock.value, t);
    }
    forall i, t | i in s'.intrs && t in s'.reqs && IntrHasReqLock(s'.intrs[i].pc, t)
      ensures s'.reqs[t].lock == Some(Interrupter(i))
    {
      assert Target(s.intrs[i].pc) == Some(t);
    }
  }

  lemma NewRequestKeepsInv(s: State, r: nat, q: Req)
    requires Inv(s) && r !in s.reqs && q == NewReq(q.unique)
    ensures Inv(s.(reqs := s.reqs[r := q]))
  {
    ReqWriteKeepsCounted(s, r, q);
    ReqWriteKeepsLinked(s, r, q);
    ReqWriteKeepsLocks(s, r, q);
  }

  lemma ChoiceKeepsInv(s: State, r: nat, pc: OwnerPc)
    requires Inv(s) && r in s.reqs
    requires (s.reqs[r].pc.Idle? && pc.RegWantReq?) ||
             ((s.reqs[r].pc.Idle? || s.reqs[r].pc.Arriving?) && pc.FreeWantSe?)
    ensures Inv(s.(reqs := s.reqs[r := s.reqs[r].(pc := pc)]))
  {
    var q := s.reqs[r].(pc := pc);
    ReqWriteKeepsCounted(s, r, q);
    ReqWriteKeepsLinked(s, r, q);
    ReqWriteKeepsLocks(s, r, q);
  }

  lemma NewInterruptKeepsCounted(s: State, i: nat, x: Intr)
    requires Counted(s) && i !in s.intrs && x.pc.Received?
    ensures Counted(s.(intrs := s.intrs[i := x]))
  {
    var s' := s.(intrs := s.intrs[i := x]);
    forall t | t in s.reqs
      ensures ReqCounted(s', t)
    {
      assert ReqCounted(s, t) && Holders(s', t) == Holders(s, t);
    }
  }

  lemma NewInterruptKeepsLocks(s: State, i: nat, x: Intr)
    requires ReqLocks(s) && SeLock(s) && i !in s.intrs && x.pc.Received?
    ensures ReqLocks(s.(intrs := s.intrs[i := x])) && SeLock(s.(intrs := s.intrs[i := x]))
  {
    var s' := s.(intrs := s.intrs[i := x]);
    forall t | t in s'.reqs && s'.reqs[t].lock.Some?
      ensures HoldsReqLock(s', s'.reqs[t].lock.value, t)
    {
      assert HoldsReqLock(s, s.reqs[t].lock.value, t);
    }
  }

  lemma NewInterruptKeepsQueue(s: State, i: nat, x: Intr)
    requires Linked(s) && Queue(s) && i !in s.intrs && x.pc.Received?
    ensures Linked(s.(intrs := s.intrs[i := x])) && Queue(s.(intrs := s.intrs[i := x]))
  {
  }

  lemma NewInterruptKeepsInv(s: State, i: nat, x: Intr)
    requires Inv(s) && i !in s.intrs && x == NewIntr(x.target)
    ensures Inv(s.(intrs := s.intrs[i := x]))
  {
    NewInterruptKeepsCounted(s, i, x);
    NewInterruptKeepsLocks(s, i, x);
    NewInterruptKeepsQueue(s, i, x);
  }

  lemma OwnerKeepsHolders(s: State, r: nat, t: nat)
    requires r in s.reqs && (forall i :: i in s.queued ==> i in s.intrs && s.intrs[i].pc.Queued?)
    ensures Holders(OwnerApply(s, r), t) == Holders(s, t)
  {
    if s.reqs[r].pc.Enqueuing? {
    } else {
      assert OwnerApply(s, r).intrs == s.intrs;
    }
  }

  lemma OwnerKeepsCount(s: State, r: nat, s': State)
    requires r in s.reqs && (forall i :: i in s.queued ==> i in s.intrs) && s' == OwnerApply(s, r)
    requires ReqCounted(s, r) && Holders(s', r) == Holders(s, r)
    ensures r in s'.reqs && ReqCounted(s', r)
  {
    hide Holders; hide FindQueued; hide Unlink;
  }

  lemma OwnerKeepsCounted(s: State, r: nat)
    requires Counted(s) && r in s.reqs && (forall i :: i in s.queued ==> i in s.intrs && s.intrs[i].pc.Queued?)
    ensures Counted(OwnerApply(s, r))
  {
    hide OwnerApply; hide Holders;
    var s' := OwnerApply(s, r);
    OwnerChangesItself(s, r, s');
    forall t | t in s'.reqs
      ensures ReqCounted(s', t)
    {
      assert ReqCounted(s, t);
      OwnerKeepsHolders(s, r, t);
      if t == r {
        OwnerKeepsCount(s, r, s');
      }
    }
  }

  lemma OwnerKeepsReferences(s: State, r: nat)
    requires References(s) && Disposals(s)
    requires r in s.reqs && (forall i :: i in s.queued ==> i in s.intrs && s.intrs[i].pc.Queued?)
    ensures References(OwnerApply(s, r)) && Disposals(OwnerApply(s, r))
  {
    hide FindQueued; hide Unlink;
  }

  lemma UnlinkMembers(list: seq<nat>, r: nat)
    requires NoDuplicates(list)
    ensures NoDuplicates(Unlink(list, r))
    ensures forall x :: x in Unlink(list, r) <==> x in list && x != r
  {
    if r in list {
      var k :| 0 <= k < |list| && list[k] == r && Unlink(list, r) == RemoveAt(list, k);
      RemoveAtMembers(list, k);
    }
  }

  lemma OwnerChangesItself(s: State, r: nat, s': State)
    requires r in s.reqs && (forall i :: i in s.queued ==> i in s.intrs) && s' == OwnerApply(s, r)
    ensures var matched := s.reqs[r].pc.Enqueuing? && FindQueued(s, s.reqs[r].unique, 0) < |s.queued|;
            s'.reqs == s.reqs[r := OwnerWrites(s.reqs[r], r, matched)]
  {
    hide TakenIn; hide Unlink;
  }

  /** What the owner's step does to the session list. */
  lemma OwnerRelinks(s: State, r: nat, s': State)
    requires r in s.reqs && (forall i :: i in s.queued ==> i in s.intrs) && s' == OwnerApply(s, r)
    ensures s'.pending == if s.reqs[r].pc.Enqueuing? then s.pending + [r]
                          else if s.reqs[r].pc.FreeLocked? then Unlink(s.pending, r) else s.pending
  {
    hide FindQueued; hide Unlink;
  }

  lemma OwnerMarksLinked(q: Req, r: nat, matched: bool)
    ensures var q' := OwnerWrites(q, r, matched);
            && q'.unique == q.unique
            && q'.linked == (q.pc.Enqueuing? || (q.linked && !q.pc.FreeLocked?))
            && ((q.linked ==> MayBeLinked(q.pc)) && q'.linked ==> MayBeLinked(q'.pc))
  {
  }

  lemma OwnerKeepsLinked(s: State, r: nat)
    requires Linked(s)
    requires r in s.reqs && (forall i :: i in s.queued ==> i in s.intrs)
    ensures Linked(OwnerApply(s, r))
  {
    hide OwnerApply; hide OwnerWrites; hide FindQueued; hide Unlink;
    OwnerChangesItself(s, r, OwnerApply(s, r));
    OwnerRelinks(s, r, OwnerApply(s, r));
    OwnerMarksLinked(s.reqs[r], r, s.reqs[r].pc.Enqueuing? && FindQueued(s, s.reqs[r].unique, 0) < |s.queued|);
    UnlinkMembers(s.pending, r);
  }

  /** What the owner's step does to the request lock: only the owner's own hold on it changes. */
  lemma OwnerLocks(q: Req, r: nat, matched: bool)
    requires OwnerHasReqLock(q.pc) ==> q.lock == Some(Owner(r))
    requires q.pc.RegWantReq? ==> q.lock.None?
    ensures var q' := OwnerWrites(q, r, matched);
            && (q'.lock == q.lock || (q'.lock == Some(Owner(r)) && q.lock.None?) ||
                (q'.lock.None? && q.lock == Some(Owner(r))))
            && (q'.lock == Some(Owner(r)) && (q.lock == Some(Owner(r)) ==> OwnerHasReqLock(q.pc)) ==>
                  OwnerHasReqLock(q'.pc))
            && (OwnerHasReqLock(q'.pc) ==> q'.lock == Some(Owner(r)))
  {
  }

  lemma OwnerKeepsIntrLocks(s: State, r: nat, s': State)
    requires r in s.reqs
    requires (forall i :: i in s.queued ==> i in s.intrs && s.intrs[i].pc.Queued?)
    requires s' == OwnerApply(s, r)
    ensures s'.intrs.Keys == s.intrs.Keys
    ensures forall i, t :: i in s.intrs && t in s.reqs ==>
              IntrHasReqLock(s'.intrs[i].pc, t) == IntrHasReqLock(s.intrs[i].pc, t)
  {
    if s.reqs[r].pc.Enqueuing? {
    } else {
      assert s'.intrs == s.intrs;
    }
  }

  lemma OwnerKeepsReqLocks(s: State, r: nat)
    requires ReqLocks(s) && r in s.reqs && OwnerEnabled(s, r)
    requires (forall i :: i in s.queued ==> i in s.intrs && s.intrs[i].pc.Queued?)
    ensures ReqLocks(OwnerApply(s, r))
  {
    hide OwnerApply; hide OwnerWrites; hide OwnerHasReqLock; hide IntrHasReqLock; hide FindQueued;
    var s' := OwnerApply(s, r);
    OwnerChangesItself(s, r, s');
    OwnerLocks(s.reqs[r], r, s.reqs[r].pc.Enqueuing? && FindQueued(s, s.reqs[r].unique, 0) < |s.queued|);
    OwnerKeepsIntrLocks(s, r, s');
  }

  /** What the owner's step does to the session lock. */
  lemma OwnerMovesSe(s: State, r: nat, s': State)
    requires r in s.reqs && (forall i :: i in s.queued ==> i in s.intrs) && s' == OwnerApply(s, r)
    ensures var pc := s.reqs[r].pc;
            s'.se == if pc.Arriving? || pc.RegWantSe? || pc.FreeWantSe? then Some(Owner(r))
                     else if OwnerHasSe(pc) then None else s.se
  {
    hide FindQueued; hide Unlink; hide OwnerWrites;
  }

  lemma OwnerTakesSe(q: Req, r: nat, matched: bool)
    ensures OwnerHasSe(OwnerWrites(q, r, matched).pc) <==> q.pc.Arriving? || q.pc.RegWantSe? || q.pc.FreeWantSe?
  {
  }

  lemma OwnerLeavesIntrs(s: State, r: nat, s': State)
    requires r in s.reqs && (forall i :: i in s.queued ==> i in s.intrs && s.intrs[i].pc.Queued?)
    requires s' == OwnerApply(s, r)
    ensures s'.intrs.Keys == s.intrs.Keys
    ensures forall i :: i in s.intrs ==> IntrHasSe(s'.intrs[i].pc) == IntrHasSe(s.intrs[i].pc)
  {
    if !s.reqs[r].pc.Enqueuing? {
      assert s'.intrs == s.intrs;
    }
  }

  lemma OwnerKeepsSeLock(s: State, r: nat)
    requires SeLock(s) && r in s.reqs && OwnerEnabled(s, r)
    requires (forall i :: i in s.queued ==> i in s.intrs && s.intrs[i].pc.Queued?)
    ensures SeLock(OwnerApply(s, r))
  {
    hide OwnerApply; hide OwnerWrites; hide OwnerHasSe; hide IntrHasSe; hide FindQueued;
    OwnerChangesItself(s, r, OwnerApply(s, r));
    OwnerTakesSe(s.reqs[r], r, s.reqs[r].pc.Enqueuing? && FindQueued(s, s.reqs[r].unique, 0) < |s.queued|);
    OwnerMovesSe(s, r, OwnerApply(s, r));
    OwnerLeavesIntrs(s, r, OwnerApply(s, r));
  }

  lemma OwnerLeavesQueue(s: State, r: nat, s': State)
    requires r in s.reqs && (forall i :: i in s.queued ==> i in s.intrs) && !s.reqs[r].pc.Enqueuing?
    requires s' == OwnerApply(s, r)
    ensures s'.queued == s.queued && s'.intrs == s.intrs
  {
  }

  /** Enqueuing a request takes one interrupt off the queue, if there is any. */
  lemma EnqueueTakesOne(s: State, r: nat, s': State)
    requires r in s.reqs && (forall i :: i in s.queued ==> i in s.intrs) && s' == Enqueue(s, r)
    ensures s.queued == [] ==> s'.queued == [] && s'.intrs == s.intrs
    ensures s.queued != [] ==>
              var k := FindQueued(s, s.reqs[r].unique, 0);
              var at := if k < |s.queued| then k else 0;
              var i := s.queued[at];
              && s'.queued == RemoveAt(s.queued, at)
              && s'.intrs == s.intrs[i := s'.intrs[i]] && s'.intrs[i].target == s.intrs[i].target
              && s'.intrs[i].pc == (if k < |s.queued| then Disposed else Evicted)
  {
  }

  lemma DequeueKeepsDistinct(s: State, s': State, at: nat, i: nat)
    requires Queue(s) && at < |s.queued| && i == s.queued[at] && Indexed(s')
    requires i in s'.intrs && s'.queued == RemoveAt(s.queued, at) && s'.intrs == s.intrs[i := s'.intrs[i]]
    requires !s'.intrs[i].pc.Queued?
    ensures NoDuplicates(s'.queued)
    ensures forall j :: j in s'.queued <==> j in s'.intrs && s'.intrs[j].pc.Queued?
    ensures forall j :: j in s'.queued ==> j in s.queued && j != i && s'.intrs[j] == s.intrs[j]
    ensures forall j, k :: 0 <= j < k < |s'.queued| ==>
              s'.intrs[s'.queued[j]].target != s'.intrs[s'.queued[k]].target
  {
    RemoveAtMembers(s.queued, at);
  }

  lemma EnqueueUnmatched(s: State, r: nat, s': State, i: nat)
    requires Queue(s) && r in s.reqs && s' == Enqueue(s, r) && i in s'.queued
    ensures i in s.intrs && s.intrs[i].target != s.reqs[r].unique
  {
    EnqueueTakesOne(s, r, s');
    var k := FindQueued(s, s.reqs[r].unique, 0);
    var at := if k < |s.queued| then k else 0;
    RemoveAtMembers(s.queued, at);
    var j :| 0 <= j < |s.queued| && s.queued[j] == i;
  }

  lemma EnqueueKeepsQueue(s: State, r: nat, s': State)
    requires Queue(s) && r in s.reqs && s' == Enqueue(s, r) && Indexed(s')
    requires s'.reqs == s.reqs[r := s'.reqs[r]] && s'.reqs[r].unique == s.reqs[r].unique
    ensures Queue(s')
  {
    EnqueueTakesOne(s, r, s');
    if s.queued != [] {
      var k := FindQueued(s, s.reqs[r].unique, 0);
      var at := if k < |s.queued| then k else 0;
      DequeueKeepsDistinct(s, s', at, s.queued[at]);
      forall i, t | i in s'.queued && t in s'.pending
        ensures s'.intrs[i].target != s'.reqs[t].unique
      {
        EnqueueUnmatched(s, r, s', i);
      }
    }
  }

  lemma OwnerKeepsQueue(s: State, r: nat, s': State)
    requires Linked(s) && Queue(s) && r in s.reqs && OwnerEnabled(s, r)
    requires s' == OwnerApply(s, r) && Linked(s')
    ensures Queue(s')
  {
    OwnerRelinks(s, r, s');
    if s.reqs[r].pc.Enqueuing? {
      EnqueueKeepsQueue(s, r, s');
    } else {
      OwnerLeavesQueue(s, r, s');
      UnlinkMembers(s.pending, r);
    }
  }

  lemma HoldersAfter(s: State, s': State, i: nat, x: Intr, t: nat)
    requires i in s.intrs && s'.intrs == s.intrs[i := x]
    ensures Holders(s', t) ==
            if Target(x.pc) == Some(t) then Holders(s, t) + {i} else Holders(s, t) - {i}
  {
  }

  /** An interrupter's step changes the interrupter and the one request it works on, which it holds
      afterwards unless it has just dropped it. */
  lemma IntrChangesItself(s: State, i: nat, s': State)
    requires References(s) && Indexed(s) && i in s.intrs && s' == IntrApply(s, i)
    ensures s'.intrs == s.intrs[i := s'.intrs[i]] && s'.intrs[i].target == s.intrs[i].target
    ensures s'.reqs.Keys == s.reqs.Keys && s'.pending == s.pending
    ensures var found := Found(s, s.intrs[i]);
            && Target(s'.intrs[i].pc) == (if s.intrs[i].pc.Dropping? then None else found)
            && (found.Some? ==> found.value in s.reqs && (s.intrs[i].pc.Searching? ==> found.value in s.pending))
            && s'.reqs == if found.None? then s.reqs
                          else s.reqs[found.value := IntrWrites(s.reqs[found.value], i, s.intrs[i].pc)]
  {
    hide FindQueued; hide FindPending; hide IntrWrites;
  }

  lemma IntrMovesCount(q: Req, i: nat, pc: IntrPc)
    ensures var q' := IntrWrites(q, i, pc);
            && q'.pc == q.pc && q'.unique == q.unique && q'.linked == q.linked && q'.func == q.func
            && q'.ctr == q.ctr + (if pc.Searching? then 1 else 0) - (if pc.Dropping? then 1 else 0)
            && q'.destroys == q.destroys + (if pc.Dropping? && q'.ctr == 0 then 1 else 0)
  {
  }

  /** How the counter of a request follows the interrupter's reference to it. */
  lemma IntrMovesReference(s: State, i: nat, t: nat, q: Req, q': Req)
    requires References(s) && i in s.intrs && t in s.reqs && q == s.reqs[t]
    requires Indexed(s)
    requires t in IntrApply(s, i).reqs && q' == IntrApply(s, i).reqs[t]
    ensures var before, after := Target(s.intrs[i].pc) == Some(t), Target(IntrApply(s, i).intrs[i].pc) == Some(t);
            && q'.pc == q.pc && q'.unique == q.unique && q'.linked == q.linked && q'.func == q.func
            && q'.ctr == q.ctr + (if after then 1 else 0) - (if before then 1 else 0)
            && q'.destroys == q.destroys + (if before && !after && q'.ctr == 0 then 1 else 0)
            && (after && !before ==> t in s.pending)
  {
    hide IntrApply; hide IntrWrites; hide FindPending;
    IntrChangesItself(s, i, IntrApply(s, i));
    IntrMovesCount(q, i, s.intrs[i].pc);
  }

  lemma IntrKeepsReqCounted(s: State, i: nat, t: nat)
    requires Counted(s) && References(s) && Linked(s) && i in s.intrs && t in s.reqs
    requires (forall j :: j in s.queued ==> j in s.intrs)
    ensures t in IntrApply(s, i).reqs && ReqCounted(IntrApply(s, i), t)
  {
    var s' := IntrApply(s, i);
    assert ReqCounted(s, t);
    IntrChangesItself(s, i, s');
    IntrMovesReference(s, i, t, s.reqs[t], s'.reqs[t]);
    assert Target(s.intrs[i].pc) == Some(t) <==> i in Holders(s, t);
    HoldersAfter(s, s', i, s'.intrs[i], t);
  }

  lemma IntrKeepsCounted(s: State, i: nat)
    requires Counted(s) && References(s) && Linked(s) && i in s.intrs
    requires (forall j :: j in s.queued ==> j in s.intrs)
    ensures Counted(IntrApply(s, i))
  {
    hide IntrApply; hide ReqCounted;
    IntrChangesItself(s, i, IntrApply(s, i));
    forall t | t in s.reqs
      ensures ReqCounted(IntrApply(s, i), t)
    {
      IntrKeepsReqCounted(s, i, t);
    }
  }

  lemma IntrKeepsReferences(s: State, i: nat)
    requires References(s) && Disposals(s) && i in s.intrs
    requires Indexed(s)
    ensures References(IntrApply(s, i)) && Disposals(IntrApply(s, i))
  {
  }

  lemma IntrKeepsLinked(s: State, i: nat)
    requires References(s) && Linked(s) && i in s.intrs
    requires (forall j :: j in s.queued ==> j in s.intrs)
    ensures Linked(IntrApply(s, i))
  {
    var s' := IntrApply(s, i);
    IntrChangesItself(s, i, s');
    forall t | t in s.reqs
      ensures s'.reqs[t].linked == s.reqs[t].linked && s'.reqs[t].pc == s.reqs[t].pc
    {
      IntrMovesReference(s, i, t, s.reqs[t], s'.reqs[t]);
    }
  }

  /** What an interrupter's step does to the lock of a request. */
  lemma IntrLocks(s: State, i: nat, t: nat, q: Req, q': Req)
    requires References(s) && i in s.intrs && t in s.reqs && q == s.reqs[t]
    requires Indexed(s)
    requires t in IntrApply(s, i).reqs && q' == IntrApply(s, i).reqs[t]
    ensures var pc, pc' := s.intrs[i].pc, IntrApply(s, i).intrs[i].pc;
            var takes, drops := pc == WantReqLock(t), pc.Calling? && pc.r == t;
            && q'.pc == q.pc && q'.lock == (if takes then Some(Interrupter(i)) else if drops then None else q.lock)
            && (IntrHasReqLock(pc', t) <==> takes || (IntrHasReqLock(pc, t) && !drops))
            && (drops ==> IntrHasReqLock(pc, t))
  {
  }

  lemma IntrKeepsReqLocks(s: State, i: nat)
    requires References(s) && ReqLocks(s) && i in s.intrs && IntrEnabled(s, i)
    requires Indexed(s)
    ensures ReqLocks(IntrApply(s, i))
  {
    hide IntrApply; hide IntrHasReqLock; hide OwnerHasReqLock;
    var s' := IntrApply(s, i);
    IntrChangesItself(s, i, s');
    forall t | t in s.reqs
      ensures s'.reqs[t].lock.Some? ==> HoldsReqLock(s', s'.reqs[t].lock.value, t)
      ensures OwnerHasReqLock(s'.reqs[t].pc) ==> s'.reqs[t].lock == Some(Owner(t))
      ensures forall j :: j in s'.intrs && IntrHasReqLock(s'.intrs[j].pc, t) ==> s'.reqs[t].lock == Some(Interrupter(j))
    {
      IntrLocks(s, i, t, s.reqs[t], s'.reqs[t]);
      assert s.reqs[t].lock.Some? ==> HoldsReqLock(s, s.reqs[t].lock.value, t);
    }
  }

  /** What an interrupter's step does to the session lock. */
  lemma IntrMovesSe(s: State, i: nat, s': State)
    requires References(s) && Indexed(s) && i in s.intrs && s' == IntrApply(s, i)
    ensures var pc, pc' := s.intrs[i].pc, s'.intrs[i].pc;
            && s'.se == (if IntrHasSe(pc') then Some(Interrupter(i)) else if IntrHasSe(pc) then None else s.se)
            && (IntrHasSe(pc') && IntrEnabled(s, i) ==> s.se.None?)
  {
    hide FindQueued;
  }

  lemma IntrLeavesOwners(s: State, i: nat, t: nat, s': State)
    requires References(s) && Indexed(s) && i in s.intrs && t in s.reqs && s' == IntrApply(s, i)
    ensures t in s'.reqs && s'.reqs[t].pc == s.reqs[t].pc
  {
    hide IntrApply; hide Found;
    IntrChangesItself(s, i, s');
  }

  lemma IntrKeepsSeLock(s: State, i: nat)
    requires References(s) && SeLock(s) && i in s.intrs && IntrEnabled(s, i)
    requires Indexed(s)
    ensures SeLock(IntrApply(s, i))
  {
    hide IntrApply; hide OwnerHasSe; hide IntrHasSe;
    var s' := IntrApply(s, i);
    IntrChangesItself(s, i, s');
    IntrMovesSe(s, i, s');
    forall t | t in s.reqs
      ensures t in s'.reqs && s'.reqs[t].pc == s.reqs[t].pc
    {
      IntrLeavesOwners(s, i, t, s');
    }
  }

  lemma IntrQueues(s: State, i: nat, s': State)
    requires References(s) && Indexed(s) && i in s.intrs && IntrEnabled(s, i) && s' == IntrApply(s, i)
    requires i in s.queued ==> s.intrs[i].pc.Queued?
    ensures s.intrs[i].pc.Queued? ==> false
    ensures if s'.intrs[i].pc.Queued? then
              && s'.queued == s.queued + [i]
              && (forall j :: j in s.queued ==> s.intrs[j].target != s.intrs[i].target)
              && (forall r :: r in s.pending ==> s.reqs[r].unique != s.intrs[i].target)
            else s'.queued == s.queued
  {
  }

  lemma IntrKeepsQueue(s: State, i: nat, s': State)
    requires References(s) && Linked(s) && Queue(s) && i in s.intrs && IntrEnabled(s, i)
    requires s' == IntrApply(s, i) && Linked(s')
    ensures Queue(s')
  {
    hide IntrApply; hide FindQueued;
    IntrQueues(s, i, s');
    IntrChangesItself(s, i, s');
    forall t | t in s.reqs
      ensures s'.reqs[t].unique == s.reqs[t].unique
    {
      IntrMovesReference(s, i, t, s.reqs[t], s'.reqs[t]);
    }
  }

  lemma StepKeepsInv(s: State, step: Step)
    requires Inv(s) && Enabled(s, step)
    ensures Safe(s, step) && Inv(Apply(s, step))
  {
    StepIsSafe(s, step);
    match step
    case NewRequest(r, unique) => NewRequestKeepsInv(s, r, Apply(s, step).reqs[r]);
    case NewInterrupt(i, _) => NewInterruptKeepsInv(s, i, Apply(s, step).intrs[i]);
    case Register(r, f) => ChoiceKeepsInv(s, r, RegWantReq(f));
    case Reject(r) => ChoiceKeepsInv(s, r, FreeWantSe);
    case Reply(r) => ChoiceKeepsInv(s, r, FreeWantSe);
    case OwnerStep(r) => OwnerStepKeepsInv(s, r);
    case IntrStep(i) => IntrStepKeepsInv(s, i);
  }

  lemma OwnerStepKeepsInv(s: State, r: nat)
    requires Inv(s) && r in s.reqs && OwnerEnabled(s, r)
    ensures Inv(OwnerApply(s, r))
  {
    OwnerKeepsCounted(s, r);
    OwnerKeepsReferences(s, r);
    OwnerKeepsLinked(s, r);
    OwnerKeepsReqLocks(s, r);
    OwnerKeepsSeLock(s, r);
    OwnerKeepsQueue(s, r, OwnerApply(s, r));
  }

  lemma IntrStepKeepsInv(s: State, i: nat)
    requires Inv(s) && i in s.intrs && IntrEnabled(s, i)
    ensures Inv(IntrApply(s, i))
  {
    IntrKeepsCounted(s, i);
    IntrKeepsReferences(s, i);
    IntrKeepsLinked(s, i);
    IntrKeepsReqLocks(s, i);
    IntrKeepsSeLock(s, i);
    IntrKeepsQueue(s, i, IntrApply(s, i));
  }

  // ---------- whole runs ----------

  /** An unsafe step would leave an arbitrary state behind. */
  ghost predicate Moves(s: State, s': State) {
    exists step :: Enabled(s, step) && (Safe(s, step) ==> s' == Apply(s, step))
  }

  ghost predicate IsRun(run: seq<State>) {
    && |run| > 0 && run[0] == START
    && forall k :: 0 < k < |run| ==> Moves(run[k - 1], run[k])
  }

  lemma {:induction false} RunKeepsInv(run: seq<State>, k: nat)
    requires IsRun(run) && k < |run|
    ensures Inv(run[k])
  {
    if k > 0 {
      RunKeepsInv(run, k - 1);
      assert Moves(run[k - 1], run[k]);
      var step :| Enabled(run[k - 1], step) && (Safe(run[k - 1], step) ==> run[k] == Apply(run[k - 1], step));
      StepKeepsInv(run[k - 1], step);
    }
  }

  /** In every run a request is destroyed at most once; it has been destroyed exactly when
      its owner is through with it and no interrupter holds it, so never while it is in
      the session list, never under an interrupter; and no step touches it afterwards. */
  lemma RequestsAreDestroyedOnceByTheLastHolder(run: seq<State>, k: nat, r: nat, step: Step)
    requires IsRun(run) && k < |run| && r in run[k].reqs && Enabled(run[k], step)
    ensures run[k].reqs[r].destroys <= 1
    ensures run[k].reqs[r].destroys == 1 <==>
              Holders(run[k], r) == {} && !OwnerHolds(run[k].reqs[r].pc) && run[k].reqs[r].pc != FreeDecide(0)
    ensures run[k].reqs[r].destroys == 1 ==> r !in run[k].pending && r !in Touched(run[k], step)
    ensures run[k].reqs[r].destroys == 1 ==> run[k].reqs[r].lock.None?
  {
    RunKeepsInv(run, k);
    var s := run[k];
    assert ReqCounted(s, r);
    StepIsSafe(s, step);
    assert forall i :: i in s.intrs && IntrHasReqLock(s.intrs[i].pc, r) ==> i in Holders(s, r);
  }

  predicate WantsReqLock(s: State, a: Actor) {
    match a
    case Owner(r) => r in s.reqs && s.reqs[r].pc.RegWantReq?
    case Interrupter(i) => i in s.intrs && s.intrs[i].pc.WantReqLock?
  }

  /** The request lock is never asked for while holding the session lock. */
  lemma LockOrderIsKept(run: seq<State>, k: nat, a: Actor)
    requires IsRun(run) && k < |run| && WantsReqLock(run[k], a)
    ensures run[k].se != Some(a)
  {
    RunKeepsInv(run, k);
  }

  /** An actor in the middle of something: it holds or wants a lock, or has a request to
      destroy. Idle owners, queued interrupts and finished actors are at rest. */
  predicate Busy(s: State, a: Actor) {
    match a
    case Owner(r) => r in s.reqs && !s.reqs[r].pc.Idle? && !s.reqs[r].pc.Done?
    case Interrupter(i) => i in s.intrs && !s.intrs[i].pc.Queued? && !s.intrs[i].pc.Disposed?
  }

  function NextStep(a: Actor): Step {
    match a
    case Owner(r) => OwnerStep(r)
    case Interrupter(i) => IntrStep(i)
  }

  /** No deadlock: if anyone is busy, some busy actor can move. */
  lemma SomeoneCanMove(run: seq<State>, k: nat, a: Actor)
    requires IsRun(run) && k < |run| && Busy(run[k], a)
    ensures exists b :: Busy(run[k], b) && Enabled(run[k], NextStep(b))
  {
    hide Counted; hide Linked; hide Queue; hide Disposals;
    RunKeepsInv(run, k);
    var s := run[k];
    if s.se.Some? {
      assert Busy(s, s.se.value) && Enabled(s, NextStep(s.se.value));
    } else if Enabled(s, NextStep(a)) {
    } else {
      var r := if a.Owner? then a.req else s.intrs[a.intr].pc.r;
      assert HoldsReqLock(s, s.reqs[r].lock.value, r);
      assert Busy(s, s.reqs[r].lock.value) && Enabled(s, NextStep(s.reqs[r].lock.value));
    }
  }

  /** Queued interrupts aim at pairwise different requests, none of which is pending, and
      every INTERRUPT has been disposed of once if it is done with, and never otherwise. */
  lemma QueuedInterruptsAreUnmatched(run: seq<State>, k: nat)
    requires IsRun(run) && k < |run|
    ensures Indexed(run[k])
    ensures forall j, l :: 0 <= j < l < |run[k].queued| ==>
              run[k].intrs[run[k].queued[j]].target != run[k].intrs[run[k].queued[l]].target
    ensures forall i, r :: i in run[k].queued && r in run[k].pending ==>
              run[k].intrs[i].target != run[k].reqs[r].unique
    ensures forall i :: i in run[k].intrs ==>
              run[k].intrs[i].disposals == if run[k].intrs[i].pc.Disposed? then 1 else 0
  {
    RunKeepsInv(run, k);
  }

  /** When nobody is in the middle of anything, every INTERRUPT received so far either waits in the
      queue, once, or has been disposed of, once. */
  lemma AtRestInterruptsAreQueuedOrDisposed(run: seq<State>, k: nat)
    requires IsRun(run) && k < |run| && forall a :: !Busy(run[k], a)
    ensures NoDuplicates(run[k].queued)
    ensures forall i :: i in run[k].intrs ==>
              if i in run[k].queued then run[k].intrs[i].disposals == 0 else run[k].intrs[i].disposals == 1
  {
    RunKeepsInv(run, k);
    forall i | i in run[k].intrs
      ensures run[k].intrs[i].pc.Queued? || run[k].intrs[i].pc.Disposed?
    {
      assert !Busy(run[k], Interrupter(i));
    }
  }
}
