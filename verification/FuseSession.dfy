/** The critical sections of the FUSE session on its two intrusive lists: the list of
    pending requests and the list of unmatched interrupts. */
module FuseSession {
  import opened Prelude
  import opened CircularList
  import opened InterruptQueue

  /** A request; target is the number an INTERRUPT aims at. */
  datatype ReqData = ReqData(unique: nat, ctr: int, interrupted: bool, func: Option<nat>, target: nat)

  type Request = Node<ReqData>

  /** reqs and intrs are the nodes of the two circles, each starting with its list head. */
  class Session {
    const list: Request
    const interrupts: Request
    ghost var reqs: seq<Request>
    ghost var intrs: seq<Request>

    ghost predicate Valid()
      reads this, reqs, intrs
    {
      && reqs != [] && Ring(reqs) && reqs[0] == list
      && intrs != [] && Ring(intrs) && intrs[0] == interrupts
      && forall n :: n in reqs ==> n !in intrs
    }

    ghost function Uniques(): (s: seq<nat>)
      requires reqs != []
      reads this, reqs
      ensures |s| == |reqs| - 1
    {
      seq(|reqs| - 1, i requires 0 <= i < |reqs| - 1 reads this, reqs => reqs[i + 1].item.unique)
    }

    ghost function Targets(): (s: seq<nat>)
      requires intrs != []
      reads this, intrs
      ensures |s| == |intrs| - 1
    {
      seq(|intrs| - 1, i requires 0 <= i < |intrs| - 1 reads this, intrs => intrs[i + 1].item.target)
    }

    constructor ()
      ensures Valid() && reqs == [list] && intrs == [interrupts] && fresh(list) && fresh(interrupts)
    {
      var blank := ReqData(0, 0, false, None, 0);
      var l := new Node(blank);
      var i := new Node(blank);
      list, interrupts := l, i;
      reqs, intrs := [l], [i];
    }

    /** The first scan of find_interrupted. */
    method FindPending(unique: nat) returns (curr: Node?<ReqData>, ghost at: nat)
      requires Valid()
      ensures at == IndexOf(Uniques(), unique)
      ensures curr == (if at < |reqs| - 1 then reqs[at + 1] else null)
    {
      Neighbours(reqs, 0);
      curr := list.next;
      at := 0;
      while curr != list
        invariant at <= |reqs| - 1
        invariant curr == if at < |reqs| - 1 then reqs[at + 1] else list
        invariant forall j :: 0 <= j < at ==> Uniques()[j] != unique
        decreases |reqs| - at
      {
        Neighbours(reqs, at + 1);
        if curr.item.unique == unique {
          IndexOfIsFirst(Uniques(), unique, at);
          return;
        }
        curr := curr.next;
        at := at + 1;
      }
      assert at == |reqs| - 1;
      IndexOfIsFirst(Uniques(), unique, at);
      curr := null;
    }

    /** The second scan of find_interrupted, and the scan of check_interrupt. */
    method FindQueued(target: nat) returns (curr: Node?<ReqData>, ghost at: nat)
      requires Valid()
      ensures at == IndexOf(Targets(), target)
      ensures curr == (if at < |intrs| - 1 then intrs[at + 1] else null)
    {
      Neighbours(intrs, 0);
      curr := interrupts.next;
      at := 0;
      while curr != interrupts
        invariant at <= |intrs| - 1
        invariant curr == if at < |intrs| - 1 then intrs[at + 1] else interrupts
        invariant forall j :: 0 <= j < at ==> Targets()[j] != target
        decreases |intrs| - at
      {
        Neighbours(intrs, at + 1);
        if curr.item.target == target {
          IndexOfIsFirst(Targets(), target, at);
          return;
        }
        curr := curr.next;
        at := at + 1;
      }
      assert at == |intrs| - 1;
      IndexOfIsFirst(Targets(), target, at);
      curr := null;
    }

    twostate lemma Shrunk(at: nat)
      requires at < old(|intrs|) - 1 && intrs == RemoveAt(old(intrs), at + 1)
      requires forall n :: n in old(intrs) ==> n.item == old(n.item)
      ensures Targets() == RemoveAt(old(Targets()), at)
    {
      forall i | 0 <= i < |intrs| - 1
        ensures Targets()[i] == RemoveAt(old(Targets()), at)[i]
      {
        assert intrs[i + 1] in old(intrs);
      }
    }

    twostate lemma SameTargets()
      requires old(intrs) != [] && intrs == old(intrs) && forall n :: n in intrs ==> n.item == old(n.item)
      ensures Targets() == old(Targets())
    {
      assert forall i :: 0 <= i < |intrs| ==> intrs[i] in intrs;
    }

    /** Takes the interrupt at position `at` off the list. */
    method Dequeue(curr: Request, ghost at: nat)
      requires Valid() && at < |intrs| - 1 && curr == intrs[at + 1]
      modifies this`intrs, intrs`next, intrs`prev
      ensures Valid() && reqs == old(reqs) && intrs == RemoveAt(old(intrs), at + 1)
      ensures Targets() == RemoveAt(old(Targets()), at)
      ensures curr !in reqs && curr !in intrs
    {
      hide Ring; hide RemoveAt; hide Targets;
      Neighbours(intrs, at + 1);
      RemovalMembers(intrs, at + 1);
      ListDel(curr, intrs, at + 1);
      RingKept(reqs);
      intrs := RemoveAt(intrs, at + 1);
      Shrunk(at);
    }

    /** Links a request at the end of the session list. */
    method AppendRequest(req: Request)
      requires Valid() && req !in reqs && req !in intrs
      modifies this`reqs, reqs`next, reqs`prev, req`next, req`prev
      ensures Valid() && reqs == old(reqs) + [req] && intrs == old(intrs)
      ensures Targets() == old(Targets())
      ensures Uniques() == old(Uniques()) + [old(req.item.unique)]
    {
      hide Ring;
      Neighbours(reqs, 0);
      ListAdd(req, list, reqs, 0);
      RingKept(intrs);
      reqs := reqs + [req];
    }

    /** Links an interrupt at the end of the interrupt list. */
    method AppendInterrupt(req: Request)
      requires Valid() && req !in reqs && req !in intrs
      modifies this`intrs, intrs`next, intrs`prev, req`next, req`prev
      ensures Valid() && intrs == old(intrs) + [req] && reqs == old(reqs)
      ensures Uniques() == old(Uniques())
      ensures Targets() == old(Targets()) + [old(req.item.target)]
    {
      hide Ring;
      Neighbours(intrs, 0);
      ListAdd(req, interrupts, intrs, 0);
      RingKept(reqs);
      intrs := intrs + [req];
    }

    /** Writing the payload of a node on neither list leaves the lists alone. */
    twostate lemma Untouched()
      requires old(Valid()) && reqs == old(reqs) && intrs == old(intrs)
      requires forall n: Request :: n in reqs || n in intrs ==>
                 n.next == old(n.next) && n.prev == old(n.prev) && n.item == old(n.item)
      ensures Valid() && Targets() == old(Targets()) && Uniques() == old(Uniques())
    {
      hide Ring;
      LinksUntouched();
      assert forall i :: 0 <= i < |intrs| ==> intrs[i] in intrs;
      assert forall i :: 0 <= i < |reqs| ==> reqs[i] in reqs;
    }

    /** Writing payloads without touching links keeps the lists. */
    twostate lemma LinksUntouched()
      requires old(Valid()) && reqs == old(reqs) && intrs == old(intrs)
      requires forall n: Request :: n in reqs || n in intrs ==> n.next == old(n.next) && n.prev == old(n.prev)
      ensures Valid()
    {
      hide Ring;
      RingKept(reqs);
      RingKept(intrs);
    }

    /** Takes the oldest queued interrupt off the list, if any, and links it to itself. */
    method TakeOldest() returns (curr: Node?<ReqData>)
      requires Valid()
      modifies this`intrs, intrs`next, intrs`prev
      ensures Valid() && reqs == old(reqs)
      ensures |old(intrs)| == 1 ==> curr == null && intrs == old(intrs) && Targets() == []
      ensures |old(intrs)| > 1 ==>
                && curr == old(intrs)[1] && curr !in reqs && curr !in intrs
                && curr.next == curr && curr.prev == curr
                && intrs == RemoveAt(old(intrs), 1) && Targets() == RemoveAt(old(Targets()), 0)
    {
      hide Ring;
      Neighbours(intrs, 0);
      Distinct(intrs);
      curr := interrupts.next;
      if curr == interrupts {
        return null;
      }
      Dequeue(curr, 0);
      label unlinked:
      curr.next, curr.prev := curr, curr;
      Untouched@unlinked();
    }

    /** The request takes the interrupt aimed at it off the list. */
    method Swallow(req: Request, curr: Request, ghost at: nat)
      requires Valid() && req !in reqs && req !in intrs && at < |intrs| - 1 && curr == intrs[at + 1]
      modifies this`intrs, intrs`next, intrs`prev, req`item
      ensures Valid() && reqs == old(reqs) && intrs == RemoveAt(old(intrs), at + 1)
      ensures Targets() == RemoveAt(old(Targets()), at)
      ensures req.item == old(req.item).(interrupted := true)
    {
      hide Ring; hide RemoveAt; hide Targets;
      Dequeue(curr, at);
      label taken:
      req.item := req.item.(interrupted := true);
      Untouched@taken();
    }

    /** check_interrupt: the arriving request swallows the interrupt aimed at it; failing
        that, the oldest queued interrupt is handed out, linked to nothing but itself. */
    method CheckInterrupt(req: Request) returns (evicted: Node?<ReqData>)
      requires Valid() && req !in reqs && req !in intrs
      modifies this`intrs, intrs`next, intrs`prev, req`item
      ensures Valid() && reqs == old(reqs)
      ensures Targets() == Arrive(old(Targets()), old(req.item.unique))
      ensures intrs == if old(|intrs|) == 1 then old(intrs)
                       else RemoveAt(old(intrs), Retired(old(Targets()), old(req.item.unique)) + 1)
      ensures req.item == old(req.item).(interrupted :=
                old(req.item.interrupted) || old(req.item.unique) in old(Targets()))
      ensures evicted == if old(|intrs|) == 1 || old(req.item.unique) in old(Targets()) then null
                         else old(intrs)[1]
      ensures evicted != null ==> evicted.next == evicted && evicted.prev == evicted &&
                                  evicted !in reqs && evicted !in intrs
    {
      hide Ring; hide Arrive; hide Retired; hide IndexOf; hide RemoveAt;
      ghost var targets := Targets();
      MemberHasIndex(targets, req.item.unique);
      WhoIsRetired(targets, req.item.unique);
      var curr, at := FindQueued(req.item.unique);
      if curr != null {
        Swallow(req, curr, at);
        return null;
      }
      evicted := TakeOldest();
    }

    /** The locked section that takes an ordinary request in. */
    method EnqueueRequest(req: Request) returns (evicted: Node?<ReqData>)
      requires Valid() && req !in reqs && req !in intrs
      modifies this, reqs`next, reqs`prev, intrs`next, intrs`prev, req
      ensures Valid() && reqs == old(reqs) + [req]
      ensures Targets() == Arrive(old(Targets()), old(req.item.unique))
      ensures Uniques() == old(Uniques()) + [old(req.item.unique)]
      ensures req.item == old(req.item).(interrupted :=
                old(req.item.interrupted) || old(req.item.unique) in old(Targets()))
      ensures evicted == if old(|intrs|) == 1 || old(req.item.unique) in old(Targets()) then null
                         else old(intrs)[1]
    {
      hide Ring; hide Arrive;
      ghost var uniques := Uniques();
      evicted := CheckInterrupt(req);
      assert Uniques() == uniques;
      AppendRequest(req);
    }

    method AddReference(curr: Request)
      requires Valid() && curr in reqs
      modifies curr`item
      ensures Valid() && Targets() == old(Targets())
      ensures curr.item == old(curr.item).(ctr := old(curr.item.ctr) + 1)
    {
      hide Ring;
      curr.item := curr.item.(ctr := curr.item.ctr + 1);
      LinksUntouched();
    }

    /** do_interrupt up to the first unlock: a pending target gets a reference, a twin of a
        queued interrupt is dropped, anything else is queued. */
    method TakeInterrupt(req: Request, target: nat) returns (curr: Node?<ReqData>, dropped: bool)
      requires Valid() && req !in reqs && req !in intrs
      modifies this`intrs, intrs`next, intrs`prev, reqs`item, req
      ensures Valid() && reqs == old(reqs)
      ensures var at := IndexOf(old(Uniques()), target);
              if at < |old(reqs)| - 1 then
                && curr == old(reqs)[at + 1] && !dropped && intrs == old(intrs)
                && curr.item == old(reqs[at + 1].item).(ctr := old(reqs[at + 1].item.ctr) + 1)
              else
                && curr == null && dropped == (target in old(Targets()))
                && intrs == (if dropped then old(intrs) else old(intrs) + [req])
      ensures forall n :: n in reqs && n != curr ==> n.item == old(n.item)
      ensures Targets() == Step(old(Targets()), Interrupt(target), curr != null)
      ensures req.item == old(req.item).(target := target)
    {
      hide Ring, IndexOf, Arrive, Targets, Uniques;
      ghost var uniques := Uniques();
      MemberHasIndex(Targets(), target);
      req.item := req.item.(target := target);
      Untouched();
      ghost var at;
      curr, at := FindPending(target);
      if curr != null {
        assert at == IndexOf(uniques, target) < |reqs| - 1;
        AddReference(curr);
        return curr, false;
      }
      var twin;
      twin, at := FindQueued(target);
      if twin != null {
        return null, true;
      }
      AppendInterrupt(req);
      return null, false;
    }

    /** The locked section of fuse_free_req; req is linked in the session list at position
        `at`, or on its own when at == 0. Tells the caller whether to destroy it. */
    method FreeRequest(req: Request, ghost at: nat) returns (destroy: bool)
      requires Valid()
      requires if at > 0 then at < |reqs| && req == reqs[at]
               else req !in reqs && req !in intrs && req.next == req && req.prev == req
      modifies this`reqs, reqs`next, reqs`prev, req
      ensures Valid() && intrs == old(intrs) && Targets() == old(Targets())
      ensures reqs == if at > 0 then RemoveAt(old(reqs), at) else old(reqs)
      ensures req.item == old(req.item).(func := None, ctr := old(req.item.ctr) - 1)
      ensures destroy <==> req.item.ctr == 0
      ensures req !in reqs && req !in intrs
    {
      hide Ring;
      req.item := req.item.(func := None);
      LinksUntouched();
      Unlink(req, at);
      label unlinked:
      req.item := req.item.(ctr := req.item.ctr - 1);
      LinksUntouched@unlinked();
      destroy := req.item.ctr == 0;
    }

    /** list_del_req on a request that may or may not be in the list. */
    method Unlink(req: Request, ghost at: nat)
      requires Valid()
      requires if at > 0 then at < |reqs| && req == reqs[at]
               else req !in reqs && req !in intrs && req.next == req && req.prev == req
      modifies this`reqs, reqs`next, reqs`prev, req`next, req`prev
      ensures Valid() && intrs == old(intrs) && Targets() == old(Targets())
      ensures reqs == if at > 0 then RemoveAt(old(reqs), at) else old(reqs)
      ensures req !in reqs && req !in intrs
    {
      hide Ring; hide Targets; hide RemoveAt;
      ghost var ns := if at > 0 then reqs else [req];
      SelfLinked(req);
      Neighbours(ns, at);
      RemovalMembers(ns, at);
      ListDel(req, ns, at);
      RingKept(intrs);
      if at > 0 {
        reqs := RemoveAt(reqs, at);
      } else {
        RingKept(reqs);
      }
      SameTargets();
    }
  }
}
