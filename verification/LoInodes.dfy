/** The passthrough file system's list of inodes, as it lies in memory: a circle of nodes whose
    head is the root inode, each node with an open descriptor. */
module LoInodes {
  import opened Prelude
  import opened CircularList
  import opened InodeTable

  const ENOMEM := 12

  type Inode = Node<InodeData>

  /** The operating system: what file each open descriptor stands for, and what file a name in a
      directory leads to. A file is known by its inode and device numbers. */
  class Os {
    var files: map<nat, Key>
    var names: map<(Key, seq<byte>), Key>
    /** The error numbers of the calls that have failed. */
    ghost var errors: seq<int>

    ghost function Open(): set<nat>
      reads this`files
    {
      files.Keys
    }

    /** openat(2), relative to an open directory: a descriptor that was not open, or an error number. */
    method Openat(dirfd: nat, name: seq<byte>) returns (fd: Option<nat>, errno: int)
      requires dirfd in Open()
      modifies this`files, this`errors
      ensures errno > 0 && errors == old(errors) + if fd.None? then [errno] else []
      ensures fd.None? ==> files == old(files)
      ensures fd.Some? ==> (old(files)[dirfd], name) in names && fd.value !in old(Open())
      ensures fd.Some? ==> files == old(files)[fd.value := names[(old(files)[dirfd], name)]]
    {
      errno :| errno > 0;
      fd := None;
      var refused := *;
      if (files[dirfd], name) in names && !refused {
        var n: nat := 0;
        ghost var higher := files.Keys;
        while n in files
          invariant higher <= files.Keys && forall i :: i in files && i !in higher ==> i < n
          decreases higher
        {
          assert n in higher;
          higher := higher - {n};
          n := n + 1;
        }
        files := files[n := names[(files[dirfd], name)]];
        fd := Some(n);
      } else {
        errors := errors + [errno];
      }
    }

    /** fstatat(2) of the descriptor itself: what file it is, or an error number. */
    method Fstatat(fd: nat) returns (key: Option<Key>, errno: int)
      requires fd in Open()
      modifies this`errors
      ensures errno > 0 && errors == old(errors) + if key.None? then [errno] else []
      ensures key.Some? ==> key.value == files[fd]
    {
      errno :| errno > 0;
      key := None;
      if * {
        key := Some(files[fd]);
      } else {
        errors := errors + [errno];
      }
    }

    /** calloc(3): whether there is memory. */
    method Calloc() returns (ok: bool)
      modifies this`errors
      ensures errors == old(errors) + if ok then [] else [12]
    {
      ok := true;
      if * {
        ok := false;
        errors := errors + [12];
      }
    }

    /** close(2) may be called only on an open descriptor. */
    method Close(fd: nat)
      requires fd in Open()
      modifies this`files
      ensures files == old(files) - {fd}
    {
      files := files - {fd};
    }
  }

  /** Each inode's descriptor stands for the file that the inode says it is. */
  ghost predicate StandFor(items: seq<InodeData>, files: map<nat, Key>) {
    forall i :: 0 <= i < |items| ==> items[i].fd in files && files[items[i].fd] == KeyOf(items[i])
  }

  class LoData {
    const os: Os
    const root: Inode
    ghost var ring: seq<Inode>

    /** The listed inodes, first to last. */
    ghost function Items(): (items: seq<InodeData>)
      requires ring != []
      reads this, ring
      ensures |items| == |ring| - 1
    {
      seq(|ring| - 1, i requires 0 <= i < |ring| - 1 reads this, ring => ring[i + 1].item)
    }

    /** The descriptors of the root and of the listed inodes. */
    ghost function Held(): set<nat>
      requires ring != []
      reads this, ring, root
    {
      Fds(Items()) + {root.item.fd}
    }

    ghost predicate Valid()
      reads this, ring, root, os
    {
      Linked() && StandFor(Items(), os.files)
    }

    /** The circle, and the descriptors its inodes have open. */
    ghost predicate Linked()
      reads this, ring, root, os
      ensures Linked() ==> ring != []
    {
      && ring != [] && Ring(ring) && ring[0] == root
      && Listed(Items()) && root.item.fd !in Fds(Items()) && Held() <= os.Open()
    }

    /** Before any lookup: only the root, open. */
    constructor (os: Os, rootFd: nat)
      requires rootFd in os.Open()
      ensures this.os == os && Valid() && fresh(root) && ring == [root] && Items() == [] && root.item.fd == rootFd
    {
      this.os := os;
      var r := new Node(InodeData(rootFd, 0, 0, 2));
      root := r;
      ring := [r];
    }

    /** lo_find */
    method LoFind(key: Key) returns (p: Node?<InodeData>)
      requires Linked()
      ensures var k := FindItem(Items(), key);
              p == if k < |Items()| then ring[k + 1] else null
    {
      Neighbours(ring, 0);
      p := root.next;
      ghost var at: nat := 0;
      while p != root
        invariant at <= |ring| - 1 && p == if at < |ring| - 1 then ring[at + 1] else root
        invariant forall i :: 0 <= i < at ==> KeyOf(Items()[i]) != key
        decreases |ring| - at
      {
        Neighbours(ring, at + 1);
        if KeyOf(p.item) == key {
          assert Items()[at] == p.item;
          FindFirst(Items(), key, at);
          return;
        }
        assert Items()[at] == p.item;
        p := p.next;
        at := at + 1;
      }
      FindFirst(Items(), key, at);
      p := null;
    }

    /** inode->nlookup++ */
    method CountLookup(inode: Inode, ghost k: nat)
      requires ring != [] && Ring(ring) && ring[0] == root && k < |Items()| && inode == ring[k + 1]
      modifies inode`item
      ensures Ring(ring) && root.item == old(root.item)
      ensures Items() == old(Items())[k := old(Items())[k].(nlookup := old(Items())[k].nlookup + 1)]
    {
      inode.item := inode.item.(nlookup := inode.item.nlookup + 1);
    }

    /** A node for a file not listed yet goes behind the root. */
    method AddInode(data: InodeData) returns (inode: Inode)
      requires Linked()
      modifies this`ring, ring
      ensures ring != [] && Ring(ring) && ring[0] == root && root.item == old(root.item)
      ensures Items() == [data] + old(Items()) && inode == ring[1] && ring == [root, inode] + old(ring)[1..]
      ensures fresh(set n | n in ring && n !in old(ring))
    {
      hide Ring;
      ghost var was, items := ring, Items();
      inode := new Node(data);
      ghost var k := if |ring| == 1 then 0 else 1;
      Neighbours(ring, 0);
      Neighbours(ring, k);
      ListAdd(inode, root.next, ring, k);
      ring := InsertBefore(ring, k, inode);
      ItemsWith(was, items, inode);
    }

    lemma ItemsWith(was: seq<Inode>, items: seq<InodeData>, inode: Inode)
      requires |was| == |items| + 1 && ring == InsertBefore(was, if |was| == 1 then 0 else 1, inode)
      requires forall i :: 0 <= i < |items| ==> items[i] == was[i + 1].item
      ensures ring[0] == was[0] && ring[1] == inode && Items() == [inode.item] + items
    {
      forall i | 0 <= i < |ring| - 1
        ensures Items()[i] == ([inode.item] + items)[i]
      {
        assert i > 0 ==> ring[i + 1] == was[i];
      }
    }

    /** What lo_do_lookup does to the list once it has searched it and found p, or nothing. */
    method Register(p: Node?<InodeData>, newfd: nat, key: Key) returns (e: Inode)
      requires Linked() && p == if FindItem(Items(), key) < |Items()| then ring[FindItem(Items(), key) + 1] else null
      modifies this`ring, ring
      ensures ring != [] && Ring(ring) && ring[0] == root && root.item == old(root.item)
      ensures Items() == AfterLookup(old(Items()), newfd, key)
      ensures FindItem(Items(), key) < |Items()| && e == ring[FindItem(Items(), key) + 1]
      ensures ring == if p != null then old(ring) else [root, e] + old(ring)[1..]
      ensures fresh(set n | n in ring && n !in old(ring))
    {
      hide Ring; hide Listed;
      FoundAgain(Items(), newfd, key);
      ghost var k := FindItem(Items(), key);
      if p != null {
        e := p;
      } else {
        e := AddInode(InodeData(newfd, key.0, key.1, 0));
        k := 0;
      }
      CountLookup(e, k);
    }

    /** The beginning of lo_do_lookup: the file is opened and identified, or nothing stays open. */
    method OpenFile(dirfd: nat, name: seq<byte>) returns (newfd: Option<nat>, key: Key, errno: int)
      requires dirfd in os.Open()
      modifies os
      ensures os.names == old(os.names)
      ensures errno > 0 && os.errors == old(os.errors) + if newfd.None? then [errno] else []
      ensures newfd.None? ==> os.files == old(os.files)
      ensures newfd.Some? ==> (old(os.files)[dirfd], name) in os.names && key == os.names[(old(os.files)[dirfd], name)]
      ensures newfd.Some? ==> newfd.value !in old(os.Open()) && os.files == old(os.files)[newfd.value := key]
    {
      key := (0, 0);
      newfd, errno := os.Openat(dirfd, name);
      if newfd.Some? {
        var attr;
        attr, errno := os.Fstatat(newfd.value);
        if attr.Some? {
          key := attr.value;
        } else {
          os.Close(newfd.value);
          assert os.files == old(os.files);
          newfd := None;
        }
      }
    }

    /** The file an inode's descriptor stands for. */
    ghost function FileOf(inode: Inode): Key
      requires Valid() && inode in ring
      reads this, ring, root, os
    {
      DirectoryIsOpen(inode);
      os.files[inode.item.fd]
    }

    /** The rest of lo_do_lookup: the file that newfd stands for is found in the list or put in front. */
    method EnterFile(newfd: nat, key: Key) returns (err: int, e: Node?<InodeData>)
      requires Linked() && StandFor(Items(), os.files)
      requires newfd in os.Open() && newfd !in Held() && os.files[newfd] == key
      modifies this`ring, os, ring
      ensures Valid() && root.item == old(root.item) && err >= 0 && os.names == old(os.names)
      ensures os.errors == old(os.errors) + if err != 0 then [err] else []
      ensures err != 0 ==> ring == old(ring) && Items() == old(Items()) && os.files == old(os.files) - {newfd}
      ensures err == 0 ==>
                && Items() == AfterLookup(old(Items()), newfd, key)
                && FindItem(Items(), key) < |Items()| && e == ring[FindItem(Items(), key) + 1]
                && (ring == old(ring) || ring == [root, e] + old(ring)[1..]) && (e.item.ino, e.item.dev) == key
      ensures os.Open() - Held() == old(os.Open() - Held()) - {newfd}
    {
      hide Ring; hide Listed; hide AfterLookup; hide Fds; hide LoData.Items; hide FindItem; hide StandFor;
      ghost var items := Items();
      LookupKeeps(items, newfd, key);
      LookupStands(items, os.files, newfd, key);
      e := LoFind(key);
      if e != null {
        os.Close(newfd);
      } else {
        var ok := os.Calloc();
        if !ok {
          os.Close(newfd);
          OneLessOpen(items, old(os.files), newfd);
          return ENOMEM, null;
        }
      }
      e := Register(e, newfd, key);
      err := 0;
      ItemOf(FindItem(Items(), key));
    }

    /** lo_do_lookup: the node of the file that the name leads to in the parent directory.
        @return  an error number, or 0 and the inode
     */
    method LoDoLookup(parent: Inode, name: seq<byte>) returns (err: int, e: Node?<InodeData>, ghost fd: nat)
      requires Valid() && parent in ring
      modifies this`ring, os, ring
      ensures Valid() && root.item == old(root.item) && err >= 0 && os.names == old(os.names)
      ensures err != 0 ==> ring == old(ring) && Items() == old(Items()) && os.files == old(os.files)
      ensures err == 0 ==> (old(FileOf(parent)), name) in os.names
      ensures err == 0 ==>
                var key := os.names[(old(FileOf(parent)), name)];
                && fd !in old(os.Open()) && Items() == AfterLookup(old(Items()), fd, key)
                && FindItem(Items(), key) < |Items()| && e == ring[FindItem(Items(), key) + 1]
                && (ring == old(ring) || ring == [root, e] + old(ring)[1..]) && (e.item.ino, e.item.dev) == key
      ensures os.Open() - Held() == old(os.Open() - Held())
      ensures os.errors == old(os.errors) + if err != 0 then [err] else []
    {
      hide Ring; hide Listed; hide AfterLookup; hide Fds; hide LoData.Items; hide FindItem; hide StandFor;
      hide KeyOf;
      e, fd := null, 0;
      DirectoryIsOpen(parent);
      ghost var files := os.files;
      var newfd, attr, errno := OpenFile(parent.item.fd, name);
      if newfd.None? {
        return errno, null, fd;
      }
      fd := newfd.value;
      OneMoreOpen(Items(), files, fd, attr);
      err, e := EnterFile(newfd.value, attr);
      assert files[fd := attr] - {fd} == files;
    }

    /** Whatever inode a request names, its descriptor is open. */
    lemma DirectoryIsOpen(inode: Inode)
      requires Valid() && inode in ring
      ensures inode.item.fd in os.Open()
    {
      var i :| 0 <= i < |ring| && ring[i] == inode;
      if i > 0 {
        assert Items()[i - 1] == inode.item;
      }
    }

    lemma ItemOf(k: nat)
      requires ring != [] && k < |Items()|
      ensures ring[k + 1].item == Items()[k]
    {
    }

    /** lo_free: off the list, and its descriptor closed. */
    method LoFree(inode: Inode, ghost k: nat)
      requires ring != [] && Ring(ring) && ring[0] == root && k < |Items()| && inode == ring[k + 1]
      requires inode.item.fd in os.Open()
      modifies this`ring, os, inode.prev`next, inode.next`prev
      ensures ring != [] && Ring(ring) && ring[0] == root && root.item == old(root.item)
      ensures ring == RemoveAt(old(ring), k + 1) && Items() == RemoveAt(old(Items()), k)
      ensures os.files == old(os.files) - {inode.item.fd}
    {
      hide Ring;
      RemovalMembers(ring, k + 1);
      ListDel(inode, ring, k + 1);
      ghost var was, items := ring, old(Items());
      ring := RemoveAt(ring, k + 1);
      ItemsWithout(was, items, k);
      os.Close(inode.item.fd);
    }

    lemma ItemsWithout(was: seq<Inode>, items: seq<InodeData>, k: nat)
      requires k + 1 < |was| == |items| + 1 && ring == RemoveAt(was, k + 1)
      requires forall i :: 0 <= i < |items| ==> items[i] == was[i + 1].item
      ensures Items() == RemoveAt(items, k)
    {
      forall i | 0 <= i < |ring| - 1
        ensures Items()[i] == RemoveAt(items, k)[i]
      {
        assert ring[i + 1] == was[if i < k then i + 1 else i + 2];
      }
    }

    /** lo_forget, of the inode at position `at` of the circle.
        @return  false if the root's last lookup is taken back: the root is part of the file system's
                 own record, and freeing it leaves everything undefined
     */
    method LoForget(inode: Inode, nlookup: nat, ghost at: nat) returns (ok: bool)
      requires Valid() && at < |ring| && inode == ring[at]
      requires nlookup <= inode.item.nlookup
      modifies this`ring, os, ring
      ensures ok <==> at > 0 || nlookup < old(root.item.nlookup)
      ensures ok ==>
                && Valid()
                && root.item == (if at > 0 then old(root.item)
                                 else old(root.item).(nlookup := old(root.item.nlookup) - nlookup))
                && Items() == (if at > 0 then AfterForget(old(Items()), at - 1, nlookup) else old(Items()))
                && os.Open() - Held() == old(os.Open() - Held())
    {
      hide Ring; hide Listed; hide Fds; hide AfterForget; hide LoData.Items; hide StandFor;
      ghost var was := Items();
      Neighbours(ring, at);
      Distinct(ring);
      if inode == root && inode.item.nlookup == nlookup {
        return false;
      }
      if at > 0 {
        ItemAt(at);
        ForgetKeeps(was, at - 1, nlookup);
        ForgetInSteps(was, at - 1, nlookup);
        ForgetStands(was, os.files, at - 1, nlookup);
        FdOf(was, at - 1);
      }
      TakeBack(inode, nlookup, at);
      if inode.item.nlookup == 0 {
        ItemAt(at);
        LoFree(inode, at - 1);
      }
      ok := true;
    }

    lemma ItemAt(at: nat)
      requires 0 < at < |ring|
      ensures Items()[at - 1] == ring[at].item
    {
    }

    /** inode->nlookup -= nlookup */
    method TakeBack(inode: Inode, nlookup: nat, ghost at: nat)
      requires ring != [] && Ring(ring) && ring[0] == root && at < |ring| && inode == ring[at]
      requires nlookup <= inode.item.nlookup
      modifies inode`item
      ensures Ring(ring) && inode.item == old(inode.item).(nlookup := old(inode.item.nlookup) - nlookup)
      ensures at > 0 ==> root.item == old(root.item)
      ensures Items() == if at > 0 then old(Items())[at - 1 := inode.item] else old(Items())
    {
      inode.item := inode.item.(nlookup := inode.item.nlookup - nlookup);
    }

    /** The end of main: every descriptor is closed, each once. */
    method Teardown()
      requires Valid()
      modifies this`ring, os, ring
      ensures ring == [root] && os.Open() == old(os.Open() - Held())
    {
      hide Ring; hide Listed; hide Fds;
      Neighbours(ring, 0);
      while root.next != root
        invariant Linked() && root.item == old(root.item) && os.Open() - Held() == old(os.Open() - Held())
        invariant forall n :: n in ring ==> n in old(ring)
        decreases |ring|
      {
        Neighbours(ring, 0);
        Neighbours(ring, 1);
        assert root.next.item == Items()[0];
        ForgetKeeps(Items(), 0, Items()[0].nlookup);
        FdOf(Items(), 0);
        LoFree(root.next, 0);
      }
      Neighbours(ring, 0);
      Distinct(ring);
      NoFds(Items());
      os.Close(root.item.fd);
    }
  }

  /** A lookup that finds the file listed can do without the new descriptor, one that does not keeps it. */
  lemma LookupStands(items: seq<InodeData>, files: map<nat, Key>, fd: nat, key: Key)
    requires StandFor(items, files) && fd in files && fd !in Fds(items) && files[fd] == key
    ensures var out := AfterLookup(items, fd, key);
            StandFor(out, if FindItem(items, key) < |items| then files - {fd} else files)
  {
    var out := AfterLookup(items, fd, key);
    assert forall i :: 0 <= i < |items| ==> items[i].fd in Fds(items);
    if FindItem(items, key) == |items| {
      assert out[1..] == items;
    }
  }

  lemma OneMoreOpen(items: seq<InodeData>, files: map<nat, Key>, fd: nat, key: Key)
    requires StandFor(items, files) && fd !in files
    ensures StandFor(items, files[fd := key])
  {
  }

  lemma OneLessOpen(items: seq<InodeData>, files: map<nat, Key>, fd: nat)
    requires StandFor(items, files) && fd !in Fds(items)
    ensures StandFor(items, files - {fd})
  {
    assert forall i :: 0 <= i < |items| ==> items[i].fd in Fds(items);
  }

  lemma ForgetStands(items: seq<InodeData>, files: map<nat, Key>, k: nat, n: nat)
    requires StandFor(items, files) && Listed(items) && k < |items| && n <= items[k].nlookup
    ensures StandFor(AfterForget(items, k, n), if items[k].nlookup == n then files - {items[k].fd} else files)
  {
  }

  lemma ForgetInSteps(items: seq<InodeData>, k: nat, n: nat)
    requires k < |items| && n <= items[k].nlookup
    ensures var left := items[k := items[k].(nlookup := items[k].nlookup - n)];
            AfterForget(items, k, n) == if items[k].nlookup == n then RemoveAt(left, k) else left
  {
  }

  lemma NoFds(items: seq<InodeData>)
    requires items == []
    ensures Fds(items) == {}
  {
  }

  lemma FdOf(items: seq<InodeData>, k: nat)
    requires k < |items|
    ensures items[k].fd in Fds(items)
  {
  }

  /** The inode just looked up is found. */
  lemma FoundAgain(items: seq<InodeData>, fd: nat, key: Key)
    ensures FindItem(AfterLookup(items, fd, key), key) ==
            if FindItem(items, key) < |items| then FindItem(items, key) else 0
  {
    var k, out := FindItem(items, key), AfterLookup(items, fd, key);
    if k < |items| {
      FindFirst(out, key, k);
    }
  }

  lemma FindFirst(items: seq<InodeData>, key: Key, at: nat)
    requires at <= |items| && (at < |items| ==> KeyOf(items[at]) == key)
    requires forall i :: 0 <= i < at ==> KeyOf(items[i]) != key
    ensures FindItem(items, key) == at
  {
  }
}
