/** The messenger's dispatch queue: an index of arrival times that mirrors the queue, and a
    throttle that is charged for every received byte until its message is done with.

    The queue itself is known only to keep items by class and to hand them out in some order.
    What runs under the lock is one step. Receivers, the dispatch thread, discarding
    connections and the one who shuts down interleave. */
module DispatchQueue {
  import opened Prelude

  datatype Code = Connect | Accept | BadRemoteReset | BadReset | ConnRefused

  datatype Item = CodeItem(code: Code, con: nat) | MsgItem(m: nat)

  datatype Entry = Entry(cls: nat, item: Item)

  /** An element of marrival; an iterator into the set is the element it stands at. */
  datatype Arrival = Arrival(stamp: real, m: nat)

  // ---------- what the lock protects ----------

  datatype Shared = Shared(mqueue: seq<Entry>, marrival: set<Arrival>, marrivalMap: map<nat, Arrival>,
                           nextId: nat, stop: bool)

  const EMPTY := Shared([], {}, map[], 1, false)

  /** Inserting a message whose key is there already changes the set only. */
  function AddArrival(sh: Shared, m: nat, stamp: real): Shared {
    sh.(marrival := sh.marrival + {Arrival(stamp, m)},
        marrivalMap := if m in sh.marrivalMap then sh.marrivalMap else sh.marrivalMap[m := Arrival(stamp, m)])
  }

  /** remove_arrival asserts that the message is in the index. */
  function RemoveArrival(sh: Shared, m: nat): Shared
    requires m in sh.marrivalMap
  {
    sh.(marrival := sh.marrival - {sh.marrivalMap[m]}, marrivalMap := sh.marrivalMap - {m})
  }

  function EnqueueSection(sh: Shared, m: nat, cls: nat, stamp: real): Shared {
    var a := AddArrival(sh, m, stamp);
    a.(mqueue := a.mqueue + [Entry(cls, MsgItem(m))])
  }

  function CodeSection(sh: Shared, code: Code, con: nat): Shared {
    if sh.stop then sh else sh.(mqueue := sh.mqueue + [Entry(0, CodeItem(code, con))])
  }

  /** The dispatch thread may take the entry at k: if it is a message, the index knows it. */
  predicate TakeSafe(sh: Shared, k: nat)
    requires k < |sh.mqueue|
  {
    sh.mqueue[k].item.MsgItem? ==> sh.mqueue[k].item.m in sh.marrivalMap
  }

  function TakeSection(sh: Shared, k: nat): Shared
    requires k < |sh.mqueue| && TakeSafe(sh, k)
  {
    var out := sh.(mqueue := RemoveAt(sh.mqueue, k));
    match sh.mqueue[k].item
    case MsgItem(m) => RemoveArrival(out, m)
    case CodeItem(_, _) => out
  }

  /** The entries of a class, and the others, both in order. */
  function OfClass(q: seq<Entry>, id: nat): (r: seq<Entry>) {
    if q == [] then [] else (if q[0].cls == id then [q[0]] else []) + OfClass(q[1..], id)
  }

  function NotOfClass(q: seq<Entry>, id: nat): (r: seq<Entry>) {
    if q == [] then [] else (if q[0].cls != id then [q[0]] else []) + NotOfClass(q[1..], id)
  }

  /** Each removed entry must be a message that the index knows, when its turn comes. */
  predicate RemovalSafe(sh: Shared, removed: seq<Entry>)
    decreases |removed|
  {
    removed == [] ||
    (removed[0].item.MsgItem? && removed[0].item.m in sh.marrivalMap &&
     RemovalSafe(RemoveArrival(sh, removed[0].item.m), removed[1..]))
  }

  function RemoveArrivals(sh: Shared, removed: seq<Entry>): Shared
    requires RemovalSafe(sh, removed)
    decreases |removed|
  {
    if removed == [] then sh else RemoveArrivals(RemoveArrival(sh, removed[0].item.m), removed[1..])
  }

  predicate DiscardSafe(sh: Shared, id: nat) {
    RemovalSafe(sh.(mqueue := NotOfClass(sh.mqueue, id)), OfClass(sh.mqueue, id))
  }

  function DiscardSection(sh: Shared, id: nat): Shared
    requires DiscardSafe(sh, id)
  {
    RemoveArrivals(sh.(mqueue := NotOfClass(sh.mqueue, id)), OfClass(sh.mqueue, id))
  }

  // ---------- the index mirrors the queue ----------

  ghost predicate InQueue(q: seq<Entry>, m: nat) {
    exists i :: 0 <= i < |q| && q[i].item == MsgItem(m)
  }

  ghost predicate OnceEach(q: seq<Entry>) {
    forall i, j :: 0 <= i < j < |q| && q[i].item.MsgItem? ==> q[i].item != q[j].item
  }

  ghost predicate Mirrored(sh: Shared) {
    && (forall m: nat :: m in sh.marrivalMap <==> InQueue(sh.mqueue, m))
    && (forall m: nat :: m in sh.marrivalMap ==> sh.marrivalMap[m].m == m && sh.marrivalMap[m] in sh.marrival)
    && (forall a :: a in sh.marrival ==> a.m in sh.marrivalMap && sh.marrivalMap[a.m] == a)
  }

  ghost predicate SharedOk(sh: Shared) {
    && OnceEach(sh.mqueue) && Mirrored(sh) && sh.nextId > 0
    && forall i :: 0 <= i < |sh.mqueue| && sh.mqueue[i].item.CodeItem? ==> sh.mqueue[i].cls == 0
  }

  lemma EnqueueMirrors(sh: Shared, m: nat, cls: nat, stamp: real)
    requires SharedOk(sh) && !InQueue(sh.mqueue, m)
    ensures SharedOk(EnqueueSection(sh, m, cls, stamp))
    ensures forall x :: InQueue(EnqueueSection(sh, m, cls, stamp).mqueue, x) <==> x == m || InQueue(sh.mqueue, x)
  {
    var q := EnqueueSection(sh, m, cls, stamp).mqueue;
    assert q[|q| - 1].item == MsgItem(m);
    forall x: nat
      ensures InQueue(q, x) <==> x == m || InQueue(sh.mqueue, x)
    {
      if InQueue(sh.mqueue, x) {
        var i :| 0 <= i < |sh.mqueue| && sh.mqueue[i].item == MsgItem(x);
        assert q[i].item == MsgItem(x);
      }
    }
  }

  lemma CodeMirrors(sh: Shared, code: Code, con: nat)
    requires SharedOk(sh)
    ensures SharedOk(CodeSection(sh, code, con))
    ensures forall x: nat :: InQueue(CodeSection(sh, code, con).mqueue, x) <==> InQueue(sh.mqueue, x)
  {
    var q := CodeSection(sh, code, con).mqueue;
    forall x: nat
      ensures InQueue(q, x) <==> InQueue(sh.mqueue, x)
    {
      if InQueue(sh.mqueue, x) {
        var i :| 0 <= i < |sh.mqueue| && sh.mqueue[i].item == MsgItem(x);
        assert q[i].item == MsgItem(x);
      }
    }
  }

  lemma RemovedFromQueue(q: seq<Entry>, k: nat, x: nat)
    requires OnceEach(q) && k < |q|
    ensures InQueue(RemoveAt(q, k), x) <==> InQueue(q, x) && q[k].item != MsgItem(x)
  {
    if InQueue(q, x) && q[k].item != MsgItem(x) {
      var i :| 0 <= i < |q| && q[i].item == MsgItem(x);
      assert RemoveAt(q, k)[if i < k then i else i - 1].item == MsgItem(x);
    }
  }

  lemma RemovalKeepsQueue(q: seq<Entry>, k: nat)
    requires OnceEach(q) && k < |q|
    requires forall i :: 0 <= i < |q| && q[i].item.CodeItem? ==> q[i].cls == 0
    ensures OnceEach(RemoveAt(q, k))
    ensures forall i :: 0 <= i < |q| - 1 && RemoveAt(q, k)[i].item.CodeItem? ==> RemoveAt(q, k)[i].cls == 0
  {
  }

  /** Taking a message off the queue and out of the index keeps the two in step. */
  lemma ForgottenMirrors(sh: Shared, m: nat, q: seq<Entry>)
    requires Mirrored(sh) && m in sh.marrivalMap
    requires forall x: nat :: InQueue(q, x) <==> InQueue(sh.mqueue, x) && x != m
    ensures Mirrored(RemoveArrival(sh.(mqueue := q), m))
  {
    hide InQueue;
  }

  lemma TakeMirrors(sh: Shared, k: nat)
    requires SharedOk(sh) && k < |sh.mqueue|
    ensures TakeSafe(sh, k) && SharedOk(TakeSection(sh, k))
    ensures forall x: nat ::
              InQueue(TakeSection(sh, k).mqueue, x) <==> InQueue(sh.mqueue, x) && sh.mqueue[k].item != MsgItem(x)
  {
    hide InQueue; hide OnceEach;
    var q := RemoveAt(sh.mqueue, k);
    RemovalKeepsQueue(sh.mqueue, k);
    forall x: nat
      ensures InQueue(q, x) <==> InQueue(sh.mqueue, x) && sh.mqueue[k].item != MsgItem(x)
    {
      RemovedFromQueue(sh.mqueue, k, x);
    }
    match sh.mqueue[k].item
    case CodeItem(_, _) => assert Mirrored(sh.(mqueue := q));
    case MsgItem(m) =>
      IsInQueue(sh.mqueue, k);
      ForgottenMirrors(sh, m, q);
  }

  lemma IsInQueue(q: seq<Entry>, k: nat)
    requires k < |q| && q[k].item.MsgItem?
    ensures InQueue(q, q[k].item.m)
  {
  }

  // ---------- discarding a class ----------

  lemma {:induction false} ClassMembers(q: seq<Entry>, id: nat, e: Entry)
    ensures e in OfClass(q, id) <==> e in q && e.cls == id
    ensures e in NotOfClass(q, id) <==> e in q && e.cls != id
  {
    if q != [] {
      ClassMembers(q[1..], id, e);
      assert q == [q[0]] + q[1..];
    }
  }

  lemma InQueueIsMember(q: seq<Entry>, m: nat)
    ensures InQueue(q, m) <==> exists cls: nat :: Entry(cls, MsgItem(m)) in q
  {
    if InQueue(q, m) {
      var i :| 0 <= i < |q| && q[i].item == MsgItem(m);
      assert Entry(q[i].cls, MsgItem(m)) in q;
    }
    if exists cls: nat :: Entry(cls, MsgItem(m)) in q {
      var cls: nat :| Entry(cls, MsgItem(m)) in q;
      var i :| 0 <= i < |q| && q[i] == Entry(cls, MsgItem(m));
    }
  }

  lemma SplitMembers(q: seq<Entry>, id: nat, m: nat)
    requires OnceEach(q)
    ensures InQueue(q, m) <==> InQueue(OfClass(q, id), m) || InQueue(NotOfClass(q, id), m)
    ensures !(InQueue(OfClass(q, id), m) && InQueue(NotOfClass(q, id), m))
  {
    InQueueIsMember(q, m);
    InQueueIsMember(OfClass(q, id), m);
    InQueueIsMember(NotOfClass(q, id), m);
    forall cls: nat
      ensures Entry(cls, MsgItem(m)) in OfClass(q, id) <==> Entry(cls, MsgItem(m)) in q && cls == id
      ensures Entry(cls, MsgItem(m)) in NotOfClass(q, id) <==> Entry(cls, MsgItem(m)) in q && cls != id
    {
      ClassMembers(q, id, Entry(cls, MsgItem(m)));
    }
  }

  lemma OnceEachRest(q: seq<Entry>)
    requires OnceEach(q) && q != []
    ensures OnceEach(q[1..]) && (q[0].item.MsgItem? ==> !InQueue(q[1..], q[0].item.m))
  {
    assert forall i :: 0 <= i < |q| - 1 ==> q[1..][i] == q[i + 1];
  }

  lemma OnceEachFront(e: Entry, q: seq<Entry>)
    requires OnceEach(q) && (e.item.MsgItem? ==> !InQueue(q, e.item.m))
    ensures OnceEach([e] + q)
  {
  }

  lemma {:induction false} SplitOnceEach(q: seq<Entry>, id: nat)
    requires OnceEach(q)
    ensures OnceEach(OfClass(q, id)) && OnceEach(NotOfClass(q, id))
  {
    if q != [] {
      OnceEachRest(q);
      SplitOnceEach(q[1..], id);
      if q[0].item.MsgItem? {
        SplitMembers(q[1..], id, q[0].item.m);
      }
      if q[0].cls == id {
        OnceEachFront(q[0], OfClass(q[1..], id));
      } else {
        OnceEachFront(q[0], NotOfClass(q[1..], id));
      }
    }
  }

  /** The index knows what is queued and what has been removed from the queue but not yet seen to. */
  ghost predicate MirroredWith(sh: Shared, removed: seq<Entry>) {
    && (forall m: nat :: m in sh.marrivalMap <==> InQueue(sh.mqueue, m) || InQueue(removed, m))
    && (forall m: nat :: !(InQueue(sh.mqueue, m) && InQueue(removed, m)))
    && (forall m: nat :: m in sh.marrivalMap ==> sh.marrivalMap[m].m == m && sh.marrivalMap[m] in sh.marrival)
    && (forall a :: a in sh.marrival ==> a.m in sh.marrivalMap && sh.marrivalMap[a.m] == a)
  }

  lemma RemoveOne(sh: Shared, removed: seq<Entry>)
    requires MirroredWith(sh, removed) && OnceEach(removed) && removed != [] && removed[0].item.MsgItem?
    ensures removed[0].item.m in sh.marrivalMap
    ensures MirroredWith(RemoveArrival(sh, removed[0].item.m), removed[1..])
  {
    var m := removed[0].item.m;
    assert InQueue(removed, m);
    OnceEachRest(removed);
    forall x: nat
      ensures InQueue(removed, x) <==> x == m || InQueue(removed[1..], x)
    {
      if InQueue(removed, x) && x != m {
        var i :| 0 <= i < |removed| && removed[i].item == MsgItem(x);
        assert removed[1..][i - 1].item == MsgItem(x);
      }
      if InQueue(removed[1..], x) {
        var i :| 0 <= i < |removed[1..]| && removed[1..][i].item == MsgItem(x);
        assert removed[i + 1].item == MsgItem(x);
      }
    }
  }

  lemma {:induction false} RemoveAll(sh: Shared, removed: seq<Entry>)
    requires MirroredWith(sh, removed) && OnceEach(removed)
    ensures RemovalSafe(sh, removed) <==> forall i :: 0 <= i < |removed| ==> removed[i].item.MsgItem?
    ensures RemovalSafe(sh, removed) ==>
              var out := RemoveArrivals(sh, removed);
              Mirrored(out) && out.mqueue == sh.mqueue && out.nextId == sh.nextId && out.stop == sh.stop
    decreases |removed|
  {
    if removed != [] && removed[0].item.MsgItem? {
      RemoveOne(sh, removed);
      OnceEachRest(removed);
      RemoveAll(RemoveArrival(sh, removed[0].item.m), removed[1..]);
      assert removed == [removed[0]] + removed[1..];
    }
  }

  lemma SplitMirrors(sh: Shared, id: nat)
    requires SharedOk(sh)
    ensures OnceEach(OfClass(sh.mqueue, id)) && OnceEach(NotOfClass(sh.mqueue, id))
    ensures MirroredWith(sh.(mqueue := NotOfClass(sh.mqueue, id)), OfClass(sh.mqueue, id))
  {
    hide OfClass; hide NotOfClass; hide InQueue; hide OnceEach;
    SplitOnceEach(sh.mqueue, id);
    forall m: nat
      ensures InQueue(sh.mqueue, m) <==> InQueue(OfClass(sh.mqueue, id), m) || InQueue(NotOfClass(sh.mqueue, id), m)
      ensures !(InQueue(OfClass(sh.mqueue, id), m) && InQueue(NotOfClass(sh.mqueue, id), m))
    {
      SplitMembers(sh.mqueue, id, m);
    }
  }

  lemma MessagesOfClass(q: seq<Entry>, id: nat)
    ensures (forall i :: 0 <= i < |OfClass(q, id)| ==> OfClass(q, id)[i].item.MsgItem?) <==>
            forall e :: e in q && e.cls == id ==> e.item.MsgItem?
  {
    hide OfClass;
    var members := OfClass(q, id);
    if forall i :: 0 <= i < |members| ==> members[i].item.MsgItem? {
      forall e | e in q && e.cls == id
        ensures e.item.MsgItem?
      {
        ClassMembers(q, id, e);
        var i :| 0 <= i < |members| && members[i] == e;
      }
    }
    forall i | 0 <= i < |members|
      ensures members[i] in q && members[i].cls == id
    {
      ClassMembers(q, id, members[i]);
    }
  }

  lemma CodesStay(q: seq<Entry>, id: nat)
    requires forall i :: 0 <= i < |q| && q[i].item.CodeItem? ==> q[i].cls == 0
    ensures var rest := NotOfClass(q, id);
            forall i :: 0 <= i < |rest| && rest[i].item.CodeItem? ==> rest[i].cls == 0
  {
    hide NotOfClass;
    var rest := NotOfClass(q, id);
    forall i | 0 <= i < |rest|
      ensures rest[i] in q
    {
      ClassMembers(q, id, rest[i]);
    }
  }

  /** Discarding a class trips no assertion exactly when the class has messages only; what is left is
      in order. */
  lemma DiscardMirrors(sh: Shared, id: nat)
    requires SharedOk(sh)
    ensures DiscardSafe(sh, id) <==> forall e :: e in sh.mqueue && e.cls == id ==> e.item.MsgItem?
    ensures DiscardSafe(sh, id) ==>
              && SharedOk(DiscardSection(sh, id)) && DiscardSection(sh, id).mqueue == NotOfClass(sh.mqueue, id)
              && DiscardSection(sh, id).stop == sh.stop && DiscardSection(sh, id).nextId == sh.nextId
  {
    hide OfClass; hide NotOfClass; hide InQueue; hide OnceEach; hide RemovalSafe; hide RemoveArrivals;
    hide MirroredWith; hide Mirrored;
    SplitMirrors(sh, id);
    RemoveAll(sh.(mqueue := NotOfClass(sh.mqueue, id)), OfClass(sh.mqueue, id));
    MessagesOfClass(sh.mqueue, id);
    CodesStay(sh.mqueue, id);
  }

  /** Only class 0 has codes, and get_id never returns 0. */
  lemma DiscardOfAnIdIsSafe(sh: Shared, id: nat)
    requires SharedOk(sh) && id > 0
    ensures DiscardSafe(sh, id)
  {
    DiscardMirrors(sh, id);
  }

  /** Enqueuing a message that is queued already: once it has been taken, the entry left behind
      trips the assertion. */
  lemma QueuedTwice(sh: Shared, m: nat, k: nat, cls: nat, stamp: real)
    requires SharedOk(sh) && k < |sh.mqueue| && sh.mqueue[k].item == MsgItem(m)
    ensures var twice := EnqueueSection(sh, m, cls, stamp);
            && TakeSafe(twice, k)
            && !TakeSafe(TakeSection(twice, k), |twice.mqueue| - 2)
  {
    assert InQueue(sh.mqueue, m);
  }
}
