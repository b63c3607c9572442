/** Intrusive doubly linked circular lists, as the FUSE session keeps its requests and
    the passthrough file system its inodes: a head node that belongs to the list's owner,
    and member nodes linked after it. */
module CircularList {
  import opened Prelude

  class Node<T> {
    var next: Node<T>
    var prev: Node<T>
    var item: T

    /** list_init_req: a node linked to itself. */
    constructor (item: T)
      ensures next == this && prev == this && this.item == item
    {
      next, prev := this, this;
      this.item := item;
    }
  }

  /** The nodes, from the head on, are linked in a circle both ways. */
  ghost predicate Ring<T>(ns: seq<Node<T>>)
    reads ns
  {
    && |ns| > 0 && NoDuplicates(ns)
    && (forall i :: 0 <= i < |ns| - 1 ==> ns[i].next == ns[i + 1])
    && (forall i :: 0 < i < |ns| ==> ns[i].prev == ns[i - 1])
    && ns[|ns| - 1].next == ns[0]
    && ns[0].prev == ns[|ns| - 1]
  }

  lemma Neighbours<T>(ns: seq<Node<T>>, k: nat)
    requires Ring(ns) && k < |ns|
    ensures ns[k].next == ns[if k == |ns| - 1 then 0 else k + 1]
    ensures ns[k].prev == ns[if k == 0 then |ns| - 1 else k - 1]
    ensures ns[k].next in ns && ns[k].prev in ns
  {
  }

  lemma Distinct<T>(ns: seq<Node<T>>)
    requires Ring(ns)
    ensures NoDuplicates(ns) && forall i :: 0 < i < |ns| ==> ns[i] != ns[0]
  {
  }

  lemma SelfLinked<T>(n: Node<T>)
    ensures n.next == n && n.prev == n ==> Ring([n])
  {
  }

  lemma RemovalMembers<T>(ns: seq<Node<T>>, k: nat)
    requires Ring(ns) && k < |ns|
    ensures forall x :: x in RemoveAt(ns, k) <==> x in ns && x != ns[k]
    ensures k > 0 ==> RemoveAt(ns, k)[0] == ns[0]
  {
    RemoveAtMembers(ns, k);
  }

  /** A circle whose links were not written is still one. */
  twostate lemma RingKept<T>(ns: seq<Node<T>>)
    requires old(Ring(ns))
    requires forall n :: n in ns ==> n.next == old(n.next) && n.prev == old(n.prev)
    ensures Ring(ns)
  {
    assert forall i :: 0 <= i < |ns| ==> ns[i] in ns;
  }

  /** The list with x inserted before position k; before the head means at the end. */
  function InsertBefore<T>(s: seq<T>, k: nat, x: T): (r: seq<T>)
    requires k < |s|
    ensures |r| == |s| + 1
    ensures k == 0 ==> r[|s|] == x && forall i :: 0 <= i < |s| ==> r[i] == s[i]
    ensures k > 0 ==> r[k] == x && (forall i :: 0 <= i < k ==> r[i] == s[i]) &&
                      (forall i :: k <= i < |s| ==> r[i + 1] == s[i])
  {
    if k == 0 then s + [x] else s[..k] + [x] + s[k..]
  }

  lemma InsertDistinct<T>(s: seq<T>, k: nat, x: T)
    requires k < |s| && NoDuplicates(s) && x !in s
    ensures NoDuplicates(InsertBefore(s, k, x))
  {
    var r, at := InsertBefore(s, k, x), if k == 0 then |s| else k;
    forall i, j | 0 <= i < j < |r|
      ensures r[i] != r[j]
    {
      assert i != at ==> r[i] == s[if i < at then i else i - 1];
      assert j != at ==> r[j] == s[if j < at then j else j - 1];
    }
  }

  /** A circle that is open only between p and its successor k, where req closes it. */
  lemma Inserted<T>(ns: seq<Node<T>>, k: nat, p: nat, req: Node<T>)
    requires k < |ns| && NoDuplicates(ns) && req !in ns && p == if k == 0 then |ns| - 1 else k - 1
    requires forall i :: 0 <= i < |ns| && i != p ==> ns[i].next == ns[if i == |ns| - 1 then 0 else i + 1]
    requires forall i :: 0 <= i < |ns| && i != k ==> ns[i].prev == ns[if i == 0 then |ns| - 1 else i - 1]
    requires req.next == ns[k] && req.prev == ns[p] && ns[p].next == req && ns[k].prev == req
    ensures Ring(InsertBefore(ns, k, req))
  {
    ghost var out := InsertBefore(ns, k, req);
    InsertDistinct(ns, k, req);
    forall i | 0 <= i < |out| - 1
      ensures out[i].next == out[i + 1] && out[i + 1].prev == out[i]
    {
      if k > 0 && i > k {
        assert out[i] == ns[i - 1] && out[i + 1] == ns[i];
        assert ns[i - 1].next == ns[i - 1 + 1];
      } else if k == 0 || i + 1 < k {
        assert out[i] == ns[i];
      }
    }
    assert forall i :: 0 < i < |out| ==> out[i - 1].next == out[i];
  }

  method ListAdd<T>(req: Node<T>, next: Node<T>, ghost ns: seq<Node<T>>, ghost k: nat)
    requires Ring(ns) && k < |ns| && next == ns[k] && req !in ns
    modifies req`next, req`prev, next`prev, next.prev`next
    ensures Ring(InsertBefore(ns, k, req))
  {
    var prev := next.prev;
    ghost var p := if k == 0 then |ns| - 1 else k - 1;
    assert prev == ns[p];
    req.next := next;
    req.prev := prev;
    prev.next := req;
    next.prev := req;
    Inserted(ns, k, p, req);
  }

  method ListDel<T>(req: Node<T>, ghost ns: seq<Node<T>>, ghost k: nat)
    requires Ring(ns) && k < |ns| && req == ns[k]
    modifies req.prev`next, req.next`prev
    ensures |ns| > 1 ==> Ring(RemoveAt(ns, k)) && req.next == old(req.next) && req.prev == old(req.prev)
    // deleting a node that is linked only to itself changes nothing at all
    ensures |ns| == 1 ==> req.next == req && req.prev == req
  {
    var prev, next := req.prev, req.next;
    ghost var p := if k == 0 then |ns| - 1 else k - 1;
    ghost var q := if k == |ns| - 1 then 0 else k + 1;
    assert prev == ns[p] && next == ns[q];
    prev.next := next;
    next.prev := prev;
    assert forall i :: 0 <= i < |ns| && i != p ==> ns[i].next == old(ns[i].next);
    assert forall i :: 0 <= i < |ns| && i != q ==> ns[i].prev == old(ns[i].prev);
    if |ns| > 1 {
      ghost var left := RemoveAt(ns, k);
      forall i | 0 <= i < |left| - 1
        ensures left[i].next == left[i + 1] && left[i + 1].prev == left[i]
      {
        if i >= k {
          assert left[i] == ns[i + 1] && left[i + 1] == ns[i + 2];
          assert ns[i + 1].next == ns[i + 1 + 1];
        } else if i + 1 < k {
          assert left[i] == ns[i] && left[i + 1] == ns[i + 1];
        }
      }
      assert forall i :: 0 < i < |left| ==> left[i - 1].next == left[i];
    }
  }
}
