/** What the passthrough file system's inode list holds, as a value: which inodes are listed, in
    which order, and how often the kernel looked each of them up. */
module InodeTable {
  import opened Prelude

  /** nlookup: the lookups the kernel has not yet taken back. */
  datatype InodeData = InodeData(fd: nat, ino: nat, dev: nat, nlookup: nat)

  type Key = (nat, nat)

  function KeyOf(d: InodeData): Key {
    (d.ino, d.dev)
  }

  /** The index of the first item with the key, or |items|. */
  function FindItem(items: seq<InodeData>, key: Key): (k: nat)
    ensures k <= |items|
    ensures k < |items| ==> KeyOf(items[k]) == key
    ensures forall i :: 0 <= i < k ==> KeyOf(items[i]) != key
  {
    if items == [] || KeyOf(items[0]) == key then 0 else 1 + FindItem(items[1..], key)
  }

  function Count(items: seq<InodeData>, key: Key): nat {
    var k := FindItem(items, key);
    if k < |items| then items[k].nlookup else 0
  }

  /** One file, one inode; an inode is listed as long as the kernel knows it; every inode has a
      descriptor of its own. */
  ghost predicate Listed(items: seq<InodeData>) {
    && (forall i, j :: 0 <= i < j < |items| ==> KeyOf(items[i]) != KeyOf(items[j]))
    && (forall i, j :: 0 <= i < j < |items| ==> items[i].fd != items[j].fd)
    && (forall i :: 0 <= i < |items| ==> items[i].nlookup > 0)
  }

  function Fds(items: seq<InodeData>): set<nat> {
    set i | 0 <= i < |items| :: items[i].fd
  }

  /** A successful lookup of the file `key`, opened as fd. */
  function AfterLookup(items: seq<InodeData>, fd: nat, key: Key): seq<InodeData> {
    var k := FindItem(items, key);
    if k < |items| then items[k := items[k].(nlookup := items[k].nlookup + 1)]
    else [InodeData(fd, key.0, key.1, 1)] + items
  }

  /** The kernel takes back n lookups of item k. */
  function AfterForget(items: seq<InodeData>, k: nat, n: nat): seq<InodeData>
    requires k < |items| && n <= items[k].nlookup
  {
    if items[k].nlookup == n then RemoveAt(items, k) else items[k := items[k].(nlookup := items[k].nlookup - n)]
  }

  lemma FindIs(items: seq<InodeData>, k: nat)
    requires Listed(items) && k < |items|
    ensures FindItem(items, KeyOf(items[k])) == k
  {
  }

  lemma LookupAgain(items: seq<InodeData>, k: nat, n: nat)
    requires Listed(items) && k < |items| && n > 0
    ensures var out := items[k := items[k].(nlookup := n)];
            Listed(out) && Fds(out) == Fds(items)
  {
    hide Fds;
    var out := items[k := items[k].(nlookup := n)];
    assert forall i :: 0 <= i < |items| ==> out[i] == items[i] || (i == k && KeyOf(out[i]) == KeyOf(items[i]));
    SameFds(items, out);
  }

  lemma ListFront(items: seq<InodeData>, d: InodeData)
    requires Listed(items) && d.fd !in Fds(items) && d.nlookup > 0
    requires forall i :: 0 <= i < |items| ==> KeyOf(items[i]) != KeyOf(d)
    ensures Listed([d] + items)
  {
    assert forall i :: 0 <= i < |items| ==> items[i].fd in Fds(items);
  }

  lemma LookupKeeps(items: seq<InodeData>, fd: nat, key: Key)
    requires Listed(items) && fd !in Fds(items)
    ensures Listed(AfterLookup(items, fd, key))
    ensures Fds(AfterLookup(items, fd, key)) == Fds(items) + if FindItem(items, key) < |items| then {} else {fd}
  {
    hide Listed; hide Fds; hide FindItem;
    var k := FindItem(items, key);
    if k < |items| {
      LookupAgain(items, k, items[k].nlookup + 1);
    } else {
      ListFront(items, InodeData(fd, key.0, key.1, 1));
      FrontFd(items, InodeData(fd, key.0, key.1, 1));
    }
  }

  lemma SameFds(items: seq<InodeData>, out: seq<InodeData>)
    requires |items| == |out| && forall i :: 0 <= i < |items| ==> out[i].fd == items[i].fd
    ensures Fds(out) == Fds(items)
  {
  }

  lemma FrontFd(items: seq<InodeData>, d: InodeData)
    ensures Fds([d] + items) == Fds(items) + {d.fd}
  {
    var out := [d] + items;
    assert out[0].fd == d.fd;
    forall i | 0 <= i < |items|
      ensures items[i].fd in Fds(out)
    {
      assert out[i + 1].fd == items[i].fd;
    }
  }

  lemma ForgetKeeps(items: seq<InodeData>, k: nat, n: nat)
    requires Listed(items) && k < |items| && n <= items[k].nlookup
    ensures Listed(AfterForget(items, k, n))
    ensures Fds(AfterForget(items, k, n)) == Fds(items) - if items[k].nlookup == n then {items[k].fd} else {}
  {
    var out := AfterForget(items, k, n);
    if items[k].nlookup == n {
      forall x | x in Fds(items) && x != items[k].fd
        ensures x in Fds(out)
      {
        var i :| 0 <= i < |items| && items[i].fd == x;
        assert out[if i < k then i else i - 1].fd == x;
      }
    } else {
      assert forall i :: 0 <= i < |items| ==> out[i].fd == items[i].fd;
    }
  }

  /** Each listed inode holds one descriptor. */
  lemma {:induction false} OneFdEach(items: seq<InodeData>)
    requires Listed(items)
    ensures |Fds(items)| == |items|
  {
    if items != [] {
      var rest := items[1..];
      assert forall i :: 0 <= i < |rest| ==> rest[i] == items[i + 1];
      OneFdEach(rest);
      assert items == [items[0]] + rest;
      FrontFd(rest, items[0]);
      assert items[0].fd !in Fds(rest);
    }
  }

  // ---------- histories ----------

  datatype Op = Lookup(fd: nat, key: Key) | Forget(key: Key, n: nat)

  /** The kernel forgets only inodes it knows, and no more lookups than it made; an open
      descriptor is not handed out again. */
  predicate Allowed(items: seq<InodeData>, op: Op) {
    match op
    case Lookup(fd, _) => fd !in Fds(items)
    case Forget(key, n) => FindItem(items, key) < |items| && n <= Count(items, key)
  }

  function Do(items: seq<InodeData>, op: Op): seq<InodeData>
    requires Allowed(items, op)
  {
    match op
    case Lookup(fd, key) => AfterLookup(items, fd, key)
    case Forget(key, n) => AfterForget(items, FindItem(items, key), n)
  }

  /** The list after ops, or nothing if some op was not allowed. */
  function After(ops: seq<Op>): Option<seq<InodeData>> {
    if ops == [] then Some([])
    else
      match After(ops[..|ops| - 1])
      case None => None
      case Some(items) =>
        if Allowed(items, ops[|ops| - 1]) then Some(Do(items, ops[|ops| - 1])) else None
  }

  /** Lookups of the file less lookups forgotten. */
  function Balance(ops: seq<Op>, key: Key): int {
    if ops == [] then 0
    else Balance(ops[..|ops| - 1], key) +
         match ops[|ops| - 1]
         case Lookup(_, k) => if k == key then 1 else 0
         case Forget(k, n) => if k == key then 0 - n else 0
  }

  lemma CountAfter(items: seq<InodeData>, op: Op, key: Key)
    requires Listed(items) && Allowed(items, op)
    ensures Count(Do(items, op), key) ==
            Count(items, key) + if op.key != key then 0 else if op.Lookup? then 1 else 0 - op.n
  {
    var k, at := FindItem(items, op.key), FindItem(items, key);
    var out := Do(items, op);
    if op.Lookup? && k == |items| {
      assert out[1..] == items;
    } else if |out| == |items| {
      assert FindItem(out, key) == at by {
        FindSame(items, out, key);
      }
    } else {
      FindAfterRemoval(items, k, key);
    }
  }

  lemma {:induction false} FindSame(a: seq<InodeData>, b: seq<InodeData>, key: Key)
    requires |a| == |b| && forall i :: 0 <= i < |a| ==> KeyOf(a[i]) == KeyOf(b[i])
    ensures FindItem(a, key) == FindItem(b, key)
  {
    if a != [] {
      FindSame(a[1..], b[1..], key);
    }
  }

  lemma FindAfterRemoval(items: seq<InodeData>, k: nat, key: Key)
    requires Listed(items) && k < |items|
    ensures Count(RemoveAt(items, k), key) == if key == KeyOf(items[k]) then 0 else Count(items, key)
  {
    var out := RemoveAt(items, k);
    var at := FindItem(out, key);
    if at < |out| {
      var was := if at < k then at else at + 1;
      assert out[at] == items[was];
      FindIs(items, was);
    } else if key != KeyOf(items[k]) {
      forall i | 0 <= i < |items|
        ensures KeyOf(items[i]) != key
      {
        if i != k {
          assert out[if i < k then i else i - 1] == items[i];
        }
      }
    }
  }

  /** After any history, a file is listed exactly when lookups of it are outstanding, as often as
      they are, and it is listed once. */
  lemma {:induction false} ListedIffLookedUp(ops: seq<Op>, key: Key)
    requires After(ops).Some?
    ensures Listed(After(ops).value)
    ensures Count(After(ops).value, key) == Balance(ops, key)
    ensures FindItem(After(ops).value, key) < |After(ops).value| <==> Balance(ops, key) > 0
  {
    if ops != [] {
      var before, op := ops[..|ops| - 1], ops[|ops| - 1];
      ListedIffLookedUp(before, key);
      var items := After(before).value;
      CountAfter(items, op, key);
      match op
      case Lookup(fd, k) => LookupKeeps(items, fd, k);
      case Forget(k, n) => ForgetKeeps(items, FindItem(items, k), n);
    }
  }
}
