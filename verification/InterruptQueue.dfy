/** The session's queue of interrupts that arrived before the request they aim at, oldest
    first, as a list of target numbers. */
module InterruptQueue {
  import opened Prelude
  import P = InterruptProtocol

  /** The first position of u, or |q|. */
  function IndexOf(q: seq<nat>, u: nat): (k: nat)
    ensures k <= |q|
    ensures k < |q| ==> q[k] == u
    ensures forall j :: 0 <= j < k ==> q[j] != u
  {
    if q == [] || q[0] == u then 0 else 1 + IndexOf(q[1..], u)
  }

  lemma IndexOfIsFirst(q: seq<nat>, u: nat, k: nat)
    requires k <= |q| && (forall j :: 0 <= j < k ==> q[j] != u) && (k < |q| ==> q[k] == u)
    ensures IndexOf(q, u) == k
  {
  }

  /** The position whose interrupt an arriving request retires. */
  function Retired(q: seq<nat>, u: nat): (at: nat)
    requires q != []
    ensures at < |q|
  {
    if IndexOf(q, u) < |q| then IndexOf(q, u) else 0
  }

  function Arrive(q: seq<nat>, u: nat): seq<nat> {
    if q == [] then [] else RemoveAt(q, Retired(q, u))
  }

  datatype Event = Request(unique: nat) | Interrupt(target: nat)

  /** What happens to the queue; an interrupt that finds its request pending, or a twin in
      the queue, never enters it. */
  function Step(q: seq<nat>, e: Event, found: bool): seq<nat> {
    match e
    case Request(u) => Arrive(q, u)
    case Interrupt(t) => if found || t in q then q else q + [t]
  }

  /** An arriving request retires exactly one queued interrupt if there is any, and moves
      the interrupt at position p forward (or retires it) if and only if it does not match
      an interrupt queued behind p. */
  lemma ArrivalAdvances(q: seq<nat>, u: nat, p: nat)
    requires p < |q|
    ensures |Arrive(q, u)| == |q| - 1
    ensures Retired(q, u) == p <==> IndexOf(q, u) == p || (u !in q && p == 0)
    ensures Retired(q, u) < p ==> Arrive(q, u)[p - 1] == q[p]
    ensures Retired(q, u) > p ==> Arrive(q, u)[p] == q[p]
    ensures Retired(q, u) <= p <==> !(p < IndexOf(q, u) < |q|)
  {
    if u in q {
      var j :| 0 <= j < |q| && q[j] == u;
      assert IndexOf(q, u) <= j;
    }
  }

  /** Requests that do not match an interrupt queued behind position p. */
  function Advances(q: seq<nat>, p: nat, events: seq<Event>, found: seq<bool>): (n: nat)
    requires |found| == |events| && p < |q|
    decreases |events|
  {
    if events == [] then 0
    else
      match events[0]
      case Interrupt(_) => Advances(Step(q, events[0], found[0]), p, events[1..], found[1..])
      case Request(u) =>
        if Retired(q, u) == p then 1
        else if Retired(q, u) < p then 1 + Advances(Arrive(q, u), p - 1, events[1..], found[1..])
        else Advances(Arrive(q, u), p, events[1..], found[1..])
  }

  /** Whether the interrupt at position p is retired at some point. */
  ghost predicate IsRetired(q: seq<nat>, p: nat, events: seq<Event>, found: seq<bool>)
    requires |found| == |events| && p < |q|
    decreases |events|
  {
    events != [] &&
    match events[0]
    case Interrupt(_) => IsRetired(Step(q, events[0], found[0]), p, events[1..], found[1..])
    case Request(u) =>
      if Retired(q, u) == p then true
      else IsRetired(Arrive(q, u), if Retired(q, u) < p then p - 1 else p, events[1..], found[1..])
  }

  /** Whatever else arrives, the interrupt at position p is retired once p + 1 requests
      have come that match nothing behind it. */
  lemma {:induction false} RetiredWithinItsPosition(q: seq<nat>, p: nat, events: seq<Event>, found: seq<bool>)
    requires |found| == |events| && p < |q|
    requires Advances(q, p, events, found) >= p + 1
    ensures IsRetired(q, p, events, found)
    decreases |events|
  {
    hide IndexOf; hide Retired;
    match events[0]
    case Interrupt(_) =>
      RetiredWithinItsPosition(Step(q, events[0], found[0]), p, events[1..], found[1..]);
    case Request(u) =>
      if Retired(q, u) < p {
        RetiredWithinItsPosition(Arrive(q, u), p - 1, events[1..], found[1..]);
      } else if Retired(q, u) > p {
        RetiredWithinItsPosition(Arrive(q, u), p, events[1..], found[1..]);
      }
  }

  function CountRequests(events: seq<Event>): nat {
    if events == [] then 0 else CountRequests(events[1..]) + if events[0].Request? then 1 else 0
  }

  /** Whether the request that the interrupt at position p aims at arrives while it is queued. */
  ghost predicate IsMatched(q: seq<nat>, p: nat, events: seq<Event>, found: seq<bool>)
    requires |found| == |events| && p < |q|
    decreases |events|
  {
    events != [] &&
    match events[0]
    case Interrupt(_) => IsMatched(Step(q, events[0], found[0]), p, events[1..], found[1..])
    case Request(u) =>
      if Retired(q, u) == p then IndexOf(q, u) == p
      else IsMatched(Arrive(q, u), if Retired(q, u) < p then p - 1 else p, events[1..], found[1..])
  }

  /** Whether, as long as it is queued, no request arrives for an interrupt queued behind it. */
  ghost predicate NoneBehindMatched(q: seq<nat>, p: nat, events: seq<Event>, found: seq<bool>)
    requires |found| == |events| && p < |q|
    decreases |events|
  {
    events == [] ||
    match events[0]
    case Interrupt(_) => NoneBehindMatched(Step(q, events[0], found[0]), p, events[1..], found[1..])
    case Request(u) =>
      Retired(q, u) == p ||
      (Retired(q, u) < p && NoneBehindMatched(Arrive(q, u), p - 1, events[1..], found[1..]))
  }

  /** With no more requests than there are interrupts before it, only its own request retires it. */
  lemma {:induction false} RetiredEarlyIffMatched(q: seq<nat>, p: nat, events: seq<Event>, found: seq<bool>)
    requires |found| == |events| && p < |q| && CountRequests(events) <= p
    ensures IsRetired(q, p, events, found) <==> IsMatched(q, p, events, found)
    decreases |events|
  {
    if events != [] {
      match events[0]
      case Interrupt(_) => RetiredEarlyIffMatched(Step(q, events[0], found[0]), p, events[1..], found[1..]);
      case Request(u) =>
        if Retired(q, u) != p {
          RetiredEarlyIffMatched(Arrive(q, u), if Retired(q, u) < p then p - 1 else p, events[1..], found[1..]);
        }
    }
  }

  /** The interrupt at position p is matched or answered within the next p + 1 requests exactly when
      one of them is the request it aims at, or none of them aims at an interrupt behind it. */
  lemma {:induction false} RetiredInTimeIff(q: seq<nat>, p: nat, events: seq<Event>, found: seq<bool>)
    requires |found| == |events| && p < |q| && CountRequests(events) == p + 1
    ensures IsRetired(q, p, events, found) <==>
            IsMatched(q, p, events, found) || NoneBehindMatched(q, p, events, found)
    decreases |events|
  {
    hide IndexOf; hide Retired;
    match events[0]
    case Interrupt(_) => RetiredInTimeIff(Step(q, events[0], found[0]), p, events[1..], found[1..]);
    case Request(u) =>
      if Retired(q, u) < p {
        RetiredInTimeIff(Arrive(q, u), p - 1, events[1..], found[1..]);
      } else if Retired(q, u) > p {
        RetiredEarlyIffMatched(Arrive(q, u), p, events[1..], found[1..]);
      }
  }

  /** n interrupts for different requests from b on, each followed by its request. */
  function MatchedPairs(b: nat, n: nat): (events: seq<Event>)
    ensures |events| == 2 * n
    decreases n
  {
    if n == 0 then [] else [Interrupt(b), Request(b)] + MatchedPairs(b + 1, n - 1)
  }

  /** The condition matters: the oldest interrupt can stay at the head of the queue through
      any number of arriving requests. (InterruptRuns has the run of the protocol.) */
  lemma {:induction false} OldestInterruptCanStarve(a: nat, b: nat, n: nat)
    requires a < b
    ensures !IsRetired([a], 0, MatchedPairs(b, n), seq(2 * n, _ => false))
    decreases n
  {
    if n > 0 {
      var events, found := MatchedPairs(b, n), seq(2 * n, _ => false);
      assert events[0] == Interrupt(b) && events[1..][0] == Request(b);
      assert events[1..][1..] == MatchedPairs(b + 1, n - 1);
      assert found[1..][1..] == seq(2 * (n - 1), _ => false);
      assert Step([a], Interrupt(b), false) == [a, b];
      IndexOfIsFirst([a, b], b, 1);
      assert Arrive([a, b], b) == [a];
      OldestInterruptCanStarve(a, b + 1, n - 1);
    }
  }

  // ---------- the queue inside the concurrent protocol ----------

  ghost function Targets(s: P.State): (q: seq<nat>)
    requires P.Indexed(s)
    ensures |q| == |s.queued|
  {
    seq(|s.queued|, k requires 0 <= k < |s.queued| => s.intrs[s.queued[k]].target)
  }

  lemma FindQueuedIsIndexOf(s: P.State, target: nat)
    requires P.Indexed(s)
    ensures P.FindQueued(s, target, 0) == IndexOf(Targets(s), target)
  {
    IndexOfIsFirst(Targets(s), target, P.FindQueued(s, target, 0));
  }

  lemma MemberHasIndex(q: seq<nat>, u: nat)
    ensures u in q <==> IndexOf(q, u) < |q|
  {
  }

  lemma WhoIsRetired(q: seq<nat>, u: nat)
    ensures q == [] ==> Arrive(q, u) == []
    ensures q != [] ==> Arrive(q, u) == RemoveAt(q, Retired(q, u))
    ensures q != [] ==> Retired(q, u) == if u in q then IndexOf(q, u) else 0
  {
    MemberHasIndex(q, u);
  }

  lemma EnqueueMarks(s: P.State, r: nat, s': P.State)
    requires P.Indexed(s) && r in s.reqs && s' == P.Enqueue(s, r)
    ensures s'.pending == s.pending + [r] && s'.reqs.Keys == s.reqs.Keys
    ensures s'.reqs[r].interrupted <==> s.reqs[r].interrupted || P.FindQueued(s, s.reqs[r].unique, 0) < |s.queued|
  {
    hide P.FindQueued; hide RemoveAt;
  }

  /** Putting a request into the session list is one arrival; the retired interrupt is
      disposed of when it matches and handed out for an EAGAIN answer when it does not. */
  lemma EnqueueIsArrival(s: P.State, r: nat, s': P.State, u: nat)
    requires P.Indexed(s) && r in s.reqs && NoDuplicates(s.queued)
    requires s' == P.Enqueue(s, r) && u == s.reqs[r].unique
    ensures P.Indexed(s') && Targets(s') == Arrive(Targets(s), u)
    ensures s'.pending == s.pending + [r]
    ensures s'.reqs[r].interrupted <==> s.reqs[r].interrupted || u in Targets(s)
    ensures s.queued != [] ==>
              s'.intrs[s.queued[Retired(Targets(s), u)]].pc == (if u in Targets(s) then P.Disposed else P.Evicted)
  {
    hide P.FindQueued; hide IndexOf; hide P.Enqueue; hide Retired; hide Arrive; hide Targets;
    FindQueuedIsIndexOf(s, u);
    MemberHasIndex(Targets(s), u);
    P.EnqueueTakesOne(s, r, s');
    EnqueueMarks(s, r, s');
    WhoIsRetired(Targets(s), u);
    if s.queued != [] {
      var at := Retired(Targets(s), u);
      RemoveAtMembers(s.queued, at);
      TargetsWithout(s, s', at);
    }
  }

  lemma TargetsWithout(s: P.State, s': P.State, at: nat)
    requires P.Indexed(s) && P.Indexed(s') && at < |s.queued| && s'.queued == RemoveAt(s.queued, at)
    requires forall i :: i in s'.queued ==> i in s.intrs && s'.intrs[i].target == s.intrs[i].target
    ensures Targets(s') == RemoveAt(Targets(s), at)
  {
    forall k | 0 <= k < |s'.queued|
      ensures Targets(s')[k] == RemoveAt(Targets(s), at)[k]
    {
      assert s'.queued[k] in s'.queued;
    }
  }

  /** An INTERRUPT enters the queue at the end, unless its target is pending or already
      queued; then it is turned into a reference, or disposed of as a duplicate. */
  lemma SearchIsInterrupt(s: P.State, i: nat)
    requires P.Indexed(s) && i in s.intrs && i !in s.queued && s.intrs[i].pc.Searching?
    ensures var s' := P.IntrApply(s, i); var t := s.intrs[i].target;
            var found := exists r :: r in s.pending && s.reqs[r].unique == t;
            && P.Indexed(s') && Targets(s') == Step(Targets(s), Interrupt(t), found)
            && (found ==> s'.intrs[i].pc.WantReqLock? && s.reqs[s'.intrs[i].pc.r].unique == t &&
                          s'.reqs[s'.intrs[i].pc.r].ctr == s.reqs[s'.intrs[i].pc.r].ctr + 1)
            && (!found && t in Targets(s) ==> s'.intrs[i].pc.Disposed?)
  {
    var s' := P.IntrApply(s, i);
    var t := s.intrs[i].target;
    FindQueuedIsIndexOf(s, t);
    var k := P.FindPending(s, t, 0);
    if k < |s.pending| {
      assert s.pending[k] in s.pending;
    }
    if t in Targets(s) {
      var j :| 0 <= j < |s.queued| && Targets(s)[j] == t;
      assert IndexOf(Targets(s), t) <= j;
    }
    assert Targets(s') == Step(Targets(s), Interrupt(t), k < |s.pending|);
  }
}
