/** Listing a directory through the passthrough file system.

    The handle of an open directory keeps an entry that did not fit and the offset of the next
    one. Callers cannot tell: what they get depends on the offset and the size they ask for. */
module Readdir {
  import opened Prelude
  import opened Wire
  import opened Dirents

  datatype Entry = Entry(ino: nat, dtype: nat, name: seq<byte>)

  /** cookies[i] is the position before entry i, the last one the end of the directory. */
  datatype Dir = Dir(entries: seq<Entry>, cookies: seq<nat>) {
    ghost predicate Valid() {
      && |cookies| == |entries| + 1 && NoDuplicates(cookies) && cookies[0] == 0
      && (forall i :: 0 <= i < |cookies| ==> cookies[i] < Pow256(8))
      && forall i :: 0 <= i < |entries| ==> entries[i].ino < Pow256(8) && |entries[i].name| < Pow256(4)
    }

    /** The directory as its readers see it. */
    ghost function Listing(): (ds: seq<Dirent>)
      requires |cookies| == |entries| + 1
      ensures |ds| == |entries|
    {
      seq(|entries|, i requires 0 <= i < |entries| =>
        Dirent(entries[i].ino, cookies[i + 1], entries[i].dtype % 16, entries[i].name))
    }
  }

  // ---------- writing an entry ----------

  method PutBytes(buf: array<byte>, p: nat, data: seq<byte>)
    requires p + |data| <= buf.Length
    modifies buf
    ensures buf[..] == old(buf[..p]) + data + old(buf[p + |data|..])
  {
    for i := 0 to |data|
      invariant buf[..p] == old(buf[..p]) && buf[p..p + i] == data[..i] && buf[p + i..] == old(buf[p + i..])
    {
      buf[p + i] := data[i];
    }
    assert buf[..] == buf[..p] + buf[p..p + |data|] + buf[p + |data|..];
  }

  /** The buffer `was` with a written at p. */
  ghost function Written(was: seq<byte>, p: nat, a: seq<byte>): seq<byte>
    requires p + |a| <= |was|
  {
    was[..p] + a + was[p + |a|..]
  }

  /** a has been written at p; data goes behind it. */
  method PutNext(buf: array<byte>, at: nat, data: seq<byte>, ghost was: seq<byte>, ghost p: nat, ghost a: seq<byte>)
    requires at == p + |a| && at + |data| <= buf.Length == |was| && buf[..] == Written(was, p, a)
    modifies buf
    ensures buf[..] == Written(was, p, a + data)
  {
    PutBytes(buf, at, data);
    assert Written(was, p, a)[..at] == was[..p] + a;
    assert was[..p] + (a + data) == was[..p] + a + data;
  }

  lemma NothingWritten(was: seq<byte>, p: nat)
    requires p <= |was|
    ensures Written(was, p, []) == was
  {
  }

  /** fuse_add_direntry: writes the entry at p if it fits, and tells its size either way. */
  method AddDirentry(buf: array?<byte>, p: nat, bufsize: nat, name: seq<byte>, ino: nat, mode: nat, off: nat)
    returns (entlenPadded: nat)
    requires buf != null ==> p + bufsize <= buf.Length
    modifies buf
    ensures entlenPadded == EntrySize(name)
    ensures buf != null && entlenPadded > bufsize ==> unchanged(buf)
    ensures buf != null && entlenPadded <= bufsize ==>
              buf[..] == old(buf[..p]) + Encode(Dirent(ino, off, mode / 4096 % 16, name)) + old(buf[p + entlenPadded..])
  {
    hide Le; hide Align; hide Zeros; hide Written;
    var namelen := |name|;
    var entlen := NAME_OFFSET + namelen;
    entlenPadded := Align(entlen);
    if buf == null || entlenPadded > bufsize {
      return;
    }
    var kind := mode / 4096 % 16;
    ghost var was := buf[..];
    NothingWritten(was, p);
    PutNext(buf, p, Le(ino, 8), was, p, []);
    assert [] + Le(ino, 8) == Le(ino, 8);
    PutNext(buf, p + 8, Le(off, 8), was, p, Le(ino, 8));
    PutNext(buf, p + 16, Le(namelen, 4), was, p, Le(ino, 8) + Le(off, 8));
    PutNext(buf, p + 20, Le(kind, 4), was, p, Le(ino, 8) + Le(off, 8) + Le(namelen, 4));
    ghost var header := Header(Dirent(ino, off, kind, name));
    PutNext(buf, p + NAME_OFFSET, name, was, p, header);
    PutNext(buf, p + entlen, Zeros(entlenPadded - entlen), was, p, header + name);
    EntryWritten(was, p, Dirent(ino, off, kind, name));
  }

  lemma EntryWritten(was: seq<byte>, p: nat, d: Dirent)
    requires p + EntrySize(d.name) <= |was|
    ensures Written(was, p, Encode(d)) == was[..p] + Encode(d) + was[p + EntrySize(d.name)..]
  {
    hide Encode; hide Align;
  }

  // ---------- the open directory ----------

  /** The C library's stream over a directory that does not change meanwhile. */
  class DirStream {
    const dir: Dir
    var at: nat
    /** The error numbers that readdir has failed with. */
    ghost var errors: seq<int>
    /** How often the stream has been repositioned. */
    ghost var seeks: nat

    ghost predicate Valid()
      reads this
    {
      dir.Valid() && at <= |dir.entries|
    }

    /** seekdir(3): off is the start or was returned by telldir. */
    method Seekdir(off: nat)
      requires Valid() && off in dir.cookies
      modifies this`at, this`seeks
      ensures Valid() && dir.cookies[at] == off && seeks == old(seeks) + 1
    {
      var i: nat :| i < |dir.cookies| && dir.cookies[i] == off;
      at := i;
      seeks := seeks + 1;
    }

    /** readdir(3): the next entry, or nothing at the end or because of an error. */
    method Readdir() returns (entry: Option<Entry>, errno: int)
      requires Valid()
      modifies this
      ensures Valid() && seeks == old(seeks)
      ensures errno >= 0 && errors == old(errors) + if errno != 0 then [errno] else []
      ensures entry.Some? ==> errno == 0
      ensures entry.Some? ==> old(at) < |dir.entries| && entry.value == dir.entries[old(at)] && at == old(at) + 1
      ensures entry.None? ==> at == old(at) && (errno == 0 ==> at == |dir.entries|)
    {
      entry, errno := None, 0;
      if * {
        errno :| errno > 0;
        errors := errors + [errno];
      } else if at < |dir.entries| {
        entry := Some(dir.entries[at]);
        at := at + 1;
      }
    }
  }

  datatype Reply = Data(bytes: seq<byte>) | Error(errno: int)

  const ENOMEM := 12

  /** struct lo_dirp: entry was read from the stream but not delivered; offset is its position. */
  class Dirp {
    const dp: DirStream
    var entry: Option<Entry>
    var offset: nat

    /** The next entry to deliver is entry i of the directory. */
    ghost predicate Before(i: nat)
      reads this, dp
    {
      && dp.Valid() && i <= |dp.dir.entries| && offset == dp.dir.cookies[i]
      && match entry
         case None => dp.at == i
         case Some(e) => i < |dp.dir.entries| && e == dp.dir.entries[i] && dp.at == i + 1
    }

    ghost predicate Valid()
      reads this, dp
    {
      exists i: nat :: Before(i)
    }

    /** lo_opendir */
    constructor (dp: DirStream)
      requires dp.Valid() && dp.at == 0
      ensures this.dp == dp && Before(0) && Valid()
    {
      this.dp := dp;
      entry, offset := None, 0;
      new;
      assert Before(0);
    }

    /** Go to the wanted offset unless the handle is there already. */
    method GoTo(off: nat, ghost i: nat)
      requires Valid() && i <= |dp.dir.entries| && off == dp.dir.cookies[i]
      modifies this, dp`at, dp`seeks
      ensures Before(i) && dp.Valid() && dp.seeks == old(dp.seeks) + if off == old(offset) then 0 else 1
    {
      ghost var j: nat :| Before(j);
      if off != offset {
        dp.Seekdir(off);
        entry := None;
        offset := off;
      } else {
        assert dp.dir.cookies[j] == dp.dir.cookies[i];
      }
    }

    /** Read ahead unless an entry is left over.
        @return  the error number of the stream, 0 if there was no error
     */
    method Fetch(ghost i: nat) returns (errno: int)
      requires Before(i)
      modifies this, dp
      ensures Before(i) && dp.seeks == old(dp.seeks)
      ensures errno >= 0 && dp.errors == old(dp.errors) + if errno != 0 then [errno] else []
      ensures entry.Some? ==> errno == 0
      ensures entry.None? && errno == 0 ==> i == |dp.dir.entries|
    {
      errno := 0;
      if entry.None? {
        entry, errno := dp.Readdir();
      }
    }

    /** The entry in hand goes into the buffer if it fits in what is left. */
    method Deliver(buf: array<byte>, p: nat, rem: nat, ghost i: nat) returns (entsize: nat)
      requires Before(i) && entry.Some? && p + rem <= buf.Length
      modifies this, buf
      ensures i < |dp.dir.entries| && entsize == EntrySize(dp.dir.Listing()[i].name)
      ensures entsize > rem ==> unchanged(this) && unchanged(buf)
      ensures entsize <= rem ==>
                Before(i + 1) && entry.None? && buf[..p + entsize] == old(buf[..p]) + Encode(dp.dir.Listing()[i])
    {
      hide Encode;
      var e, nextoff := entry.value, dp.dir.cookies[dp.at];
      entsize := AddDirentry(buf, p, rem, e.name, e.ino, e.dtype * 4096, nextoff);
      if entsize <= rem {
        entry := None;
        offset := nextoff;
        assert buf[..p + entsize] == old(buf[..p]) + Encode(dp.dir.Listing()[i]);
      }
    }

    /** lo_do_readdir for plain entries. i is the index of the entry at the wanted offset.
        @param failed  whether the stream reported an error
        @param taken   how many entries the reply has
     */
    method LoDoReaddir(size: nat, off: nat, noMemory: bool, ghost i: nat)
      returns (reply: Reply, ghost failed: bool, ghost taken: nat)
      requires Valid() && i <= |dp.dir.entries| && off == dp.dir.cookies[i]
      modifies this, dp
      ensures Valid()
      ensures noMemory ==> reply == Error(12) && unchanged(this, dp)
      ensures old(dp.errors) <= dp.errors && |dp.errors| == |old(dp.errors)| + if failed then 1 else 0
      // a request that goes on where the handle stands does not move the stream
      ensures !noMemory ==> dp.seeks == old(dp.seeks) + if off == old(offset) then 0 else 1
      ensures !noMemory ==> Before(i + taken) && taken <= Fit(dp.dir.Listing()[i..], size)
      ensures !noMemory && !failed ==> taken == Fit(dp.dir.Listing()[i..], size)
      ensures !noMemory ==>
                if failed && taken == 0 then reply == Error(dp.errors[|old(dp.errors)|])
                else reply == Data(EncodeAll(dp.dir.Listing()[i..][..taken]))
    {
      hide Before; hide Delivered; hide Fit; hide EncodeAll; hide Encode; hide EntrySize; hide Dir.Listing;
      failed, taken := false, 0;
      if noMemory {
        return Error(ENOMEM), false, 0;
      }
      var buf := new byte[size](_ => 0);
      GoTo(off, i);
      ghost var ds := dp.dir.Listing()[i..];
      NothingDelivered(ds, size);
      var p: nat, rem: nat := 0, size;
      while true
        invariant !failed && dp.errors == old(dp.errors)
        invariant dp.seeks == old(dp.seeks) + if off == old(offset) then 0 else 1
        invariant Before(i + taken) && fresh(buf) && buf.Length == size && p + rem == size
        invariant taken <= |ds| && Delivered(ds, taken, buf[..p], size, rem)
        decreases |ds| - taken
      {
        DeliveredFits(ds, taken, buf[..p], size, rem);
        var errno := Fetch(i + taken);
        if entry.None? {
          failed := errno != 0;
          if errno != 0 && rem == size {
            return Error(errno), true, 0;
          }
          break;
        }
        ghost var before, d := buf[..p], ds[taken];
        var entsize := Deliver(buf, p, rem, i + taken);
        assert d == dp.dir.Listing()[i + taken];
        if entsize > rem {
          break;
        }
        DeliverOne(ds, taken, before, size, rem);
        p := p + entsize;
        rem := rem - entsize;
        taken := taken + 1;
      }
      reply := Data(buf[..size - rem]);
    }
  }

  /** The first `taken` entries make up the bytes in the buffer, and rem of size bytes are left. */
  ghost predicate Delivered(ds: seq<Dirent>, taken: nat, bytes: seq<byte>, size: nat, rem: nat) {
    && taken <= |ds| && bytes == EncodeAll(ds[..taken]) && |bytes| + rem == size
    && Fit(ds, size) == taken + Fit(ds[taken..], rem) && (rem == size <==> taken == 0)
  }

  lemma NothingDelivered(ds: seq<Dirent>, size: nat)
    ensures Delivered(ds, 0, [], size, size)
  {
    assert ds[..0] == [] && ds[0..] == ds;
  }

  /** When no entry is left, or the next one is too big, as many are delivered as fit. */
  lemma DeliveredFits(ds: seq<Dirent>, taken: nat, bytes: seq<byte>, size: nat, rem: nat)
    requires Delivered(ds, taken, bytes, size, rem)
    ensures taken <= Fit(ds, size) && bytes == EncodeAll(ds[..taken]) && (rem == size <==> taken == 0)
    ensures taken == |ds| || EntrySize(ds[taken].name) > rem ==> taken == Fit(ds, size)
  {
  }

  lemma DeliverOne(ds: seq<Dirent>, taken: nat, bytes: seq<byte>, size: nat, rem: nat)
    requires Delivered(ds, taken, bytes, size, rem) && taken < |ds| && EntrySize(ds[taken].name) <= rem
    ensures Delivered(ds, taken + 1, bytes + Encode(ds[taken]), size, rem - EntrySize(ds[taken].name))
  {
    hide Encode; hide Align;
    FirstFits(ds, taken, rem);
  }

  lemma FirstFits(ds: seq<Dirent>, taken: nat, rem: nat)
    requires taken < |ds| && EntrySize(ds[taken].name) <= rem
    ensures Fit(ds[taken..], rem) == 1 + Fit(ds[taken + 1..], rem - EntrySize(ds[taken].name))
    ensures EncodeAll(ds[..taken + 1]) == EncodeAll(ds[..taken]) + Encode(ds[taken])
  {
    assert ds[taken..][1..] == ds[taken + 1..] && ds[..taken + 1] == ds[..taken] + [ds[taken]];
    EncodeAppend(ds[..taken], ds[taken]);
  }

  // ---------- a reader that goes on from reply to reply ----------

  /** The index of the entry at a position of the directory. */
  ghost function PlaceOf(dir: Dir, off: nat): (i: nat)
    requires dir.Valid()
    ensures i <= |dir.entries|
  {
    if i: nat :| i < |dir.cookies| && dir.cookies[i] == off then i else |dir.entries|
  }

  /** The bytes of the reply to a request without failure (see LoDoReaddir). */
  ghost function Answer(dir: Dir, off: nat, size: nat): seq<byte>
    requires dir.Valid()
  {
    var ds := dir.Listing()[PlaceOf(dir, off)..];
    EncodeAll(ds[..Fit(ds, size)])
  }

  /** What a reader gets that asks with the given sizes, each time from the offset in the last
      entry of the reply before, until it gets nothing. */
  ghost function Chain(dir: Dir, off: nat, sizes: seq<nat>): seq<Dirent>
    requires dir.Valid()
    decreases |sizes|
  {
    if sizes == [] then []
    else
      match Parse(Answer(dir, off, sizes[0]))
      case None => []
      case Some(got) => if got == [] then [] else got + Chain(dir, got[|got| - 1].off, sizes[1..])
  }

  lemma PlaceOfCookie(dir: Dir, i: nat)
    requires dir.Valid() && i <= |dir.entries|
    ensures PlaceOf(dir, dir.cookies[i]) == i
  {
    assert i < |dir.cookies| && dir.cookies[i] == dir.cookies[i];
  }

  lemma ListingEntries(dir: Dir, i: nat)
    requires dir.Valid() && i <= |dir.entries|
    ensures |dir.Listing()[i..]| == |dir.entries| - i
    ensures forall k :: 0 <= k < |dir.entries| - i ==> dir.Listing()[i..][k] == AsRead(dir, i + k)
    ensures forall d :: d in dir.Listing()[i..] ==> Encodable(d)
  {
    Widths();
    forall d | d in dir.Listing()[i..]
      ensures Encodable(d)
    {
      var j :| 0 <= j < |dir.Listing()[i..]| && dir.Listing()[i..][j] == d;
      assert d == dir.Listing()[i + j];
    }
  }

  /** What a reader is to see of entry k. */
  function AsRead(dir: Dir, k: nat): Dirent
    requires k < |dir.entries| && |dir.cookies| == |dir.entries| + 1
  {
    Dirent(dir.entries[k].ino, dir.cookies[k + 1], dir.entries[k].dtype % 16, dir.entries[k].name)
  }

  lemma AnswerParses(dir: Dir, i: nat, size: nat)
    requires dir.Valid() && i <= |dir.entries|
    ensures var ds := dir.Listing()[i..];
            Parse(Answer(dir, dir.cookies[i], size)) == Some(ds[..Fit(ds, size)])
    ensures var got, n := Parse(Answer(dir, dir.cookies[i], size)).value, Fit(dir.Listing()[i..], size);
            i + |got| == i + n <= |dir.entries| && forall k :: 0 <= k < n ==> got[k] == AsRead(dir, i + k)
  {
    hide Encodable; hide Fit; hide Parse; hide EncodeAll; hide PlaceOf; hide Dir.Listing; hide AsRead;
    PlaceOfCookie(dir, i);
    ListingEntries(dir, i);
    var ds := dir.Listing()[i..];
    ParseInvertsEncode(ds[..Fit(ds, size)]);
  }

  /** A reply is empty exactly at the end of the directory and when there is no room for the entry
      asked for: a reader cannot tell which. */
  lemma EmptyAnswerIff(dir: Dir, i: nat, size: nat)
    requires dir.Valid() && i <= |dir.entries|
    ensures Answer(dir, dir.cookies[i], size) == [] <==>
            i == |dir.entries| || size < EntrySize(dir.entries[i].name)
  {
    hide Encode; hide Align; hide PlaceOf;
    PlaceOfCookie(dir, i);
    var ds := dir.Listing()[i..];
    assert i < |dir.entries| ==> ds[0] == dir.Listing()[i];
  }

  /** Where a reader stands that asked for entry i first and then with each of the sizes. */
  ghost function Asked(ls: seq<Dirent>, i: nat, sizes: seq<nat>): (at: nat)
    requires i <= |ls|
    ensures i <= at <= |ls|
    decreases |sizes|
  {
    if sizes == [] then i else Asked(ls, i + Fit(ls[i..], sizes[0]), sizes[1..])
  }

  /** Request k has no room for the entry it asks for. */
  ghost predicate NoRoomAt(ls: seq<Dirent>, i: nat, sizes: seq<nat>, k: nat)
    requires i <= |ls| && k < |sizes|
  {
    var at := Asked(ls, i, sizes[..k]);
    at < |ls| && sizes[k] < EntrySize(ls[at].name)
  }

  ghost predicate NoRoomForSome(ls: seq<Dirent>, i: nat, sizes: seq<nat>)
    requires i <= |ls|
  {
    exists k :: 0 <= k < |sizes| && NoRoomAt(ls, i, sizes, k)
  }

  lemma NoRoomFirstOrLater(ls: seq<Dirent>, i: nat, sizes: seq<nat>)
    requires i <= |ls| && sizes != []
    ensures NoRoomForSome(ls, i, sizes) <==>
            || (i < |ls| && sizes[0] < EntrySize(ls[i].name))
            || NoRoomForSome(ls, i + Fit(ls[i..], sizes[0]), sizes[1..])
  {
    hide EntrySize; hide Fit;
    var j := i + Fit(ls[i..], sizes[0]);
    assert NoRoomAt(ls, i, sizes, 0) <==> i < |ls| && sizes[0] < EntrySize(ls[i].name) by {
      assert sizes[..0] == [];
    }
    forall k | 0 <= k < |sizes[1..]|
      ensures NoRoomAt(ls, i, sizes, k + 1) <==> NoRoomAt(ls, j, sizes[1..], k)
    {
      assert sizes[..k + 1][1..] == sizes[1..][..k] && sizes[..k + 1][0] == sizes[0];
    }
    if k :| 0 < k < |sizes| && NoRoomAt(ls, i, sizes, k) {
      assert NoRoomAt(ls, j, sizes[1..], k - 1);
    }
  }

  lemma RoomForFirst(dir: Dir, i: nat, size: nat)
    requires dir.Valid() && i <= |dir.entries|
    ensures Fit(dir.Listing()[i..], size) == 0 <==>
            i == |dir.entries| || size < EntrySize(dir.Listing()[i].name)
  {
    hide Align;
    assert i < |dir.entries| ==> dir.Listing()[i..][0] == dir.Listing()[i];
  }

  /** The last of the first n entries from i on leads to entry i + n. */
  lemma LastLeadsOn(dir: Dir, i: nat, n: nat)
    requires dir.Valid() && i + n <= |dir.entries| && n > 0
    ensures dir.Listing()[i..][..n][n - 1].off == dir.cookies[i + n]
  {
    assert dir.Listing()[i..][..n][n - 1] == dir.Listing()[i + n - 1];
  }

  /** One reply and what comes after it. */
  lemma ChainUnfolds(dir: Dir, i: nat, sizes: seq<nat>)
    requires dir.Valid() && i <= |dir.entries| && sizes != []
    ensures var ds := dir.Listing()[i..];
            var n := Fit(ds, sizes[0]);
            && (n == 0 <==> i == |dir.entries| || sizes[0] < EntrySize(dir.Listing()[i].name))
            && (n == 0 ==> Chain(dir, dir.cookies[i], sizes) == [])
            && (n > 0 ==> Chain(dir, dir.cookies[i], sizes) == ds[..n] + Chain(dir, dir.cookies[i + n], sizes[1..]))
  {
    hide Parse; hide Answer; hide PlaceOf; hide Fit; hide EntrySize; hide Dir.Listing;
    RoomForFirst(dir, i, sizes[0]);
    AnswerParses(dir, i, sizes[0]);
    var n := Fit(dir.Listing()[i..], sizes[0]);
    if n > 0 {
      LastLeadsOn(dir, i, n);
    }
  }

  lemma ChainOfNothing(dir: Dir, off: nat)
    requires dir.Valid()
    ensures Chain(dir, off, []) == []
  {
  }

  lemma LongerPrefix<T>(all: seq<T>, i: nat, n: nat, rest: seq<T>)
    requires i + n <= |all| && rest <= all[i + n..]
    ensures all[i..][..n] + rest <= all[i..]
  {
    assert all[i..] == all[i..][..n] + all[i + n..];
  }

  /** Nobody at the end of the directory lacks room. */
  lemma {:induction false} AtTheEnd(ls: seq<Dirent>, sizes: seq<nat>)
    ensures Asked(ls, |ls|, sizes) == |ls| && !NoRoomForSome(ls, |ls|, sizes)
  {
    if sizes != [] {
      assert Fit(ls[|ls|..], sizes[0]) == 0;
      AtTheEnd(ls, sizes[1..]);
      NoRoomFirstOrLater(ls, |ls|, sizes);
    }
  }

  /** The entries come in order, none is skipped and none comes twice. Some are missing in the end
      exactly if a request had no room for the entry it asked for, or the requests ran out first. */
  lemma {:induction false} ChainListsInOrder(dir: Dir, i: nat, sizes: seq<nat>)
    requires dir.Valid() && i <= |dir.entries|
    ensures Chain(dir, dir.cookies[i], sizes) <= dir.Listing()[i..]
    ensures i + |Chain(dir, dir.cookies[i], sizes)| < |dir.entries| <==>
            NoRoomForSome(dir.Listing(), i, sizes) || Asked(dir.Listing(), i, sizes) < |dir.entries|
    decreases |sizes|
  {
    hide Chain; hide Fit; hide Dir.Listing; hide EntrySize; hide NoRoomAt;
    var all := dir.Listing();
    if sizes == [] {
      ChainOfNothing(dir, dir.cookies[i]);
    } else {
      hide NoRoomForSome;
      var n := Fit(all[i..], sizes[0]);
      ChainUnfolds(dir, i, sizes);
      NoRoomFirstOrLater(all, i, sizes);
      if n > 0 {
        ChainListsInOrder(dir, i + n, sizes[1..]);
        LongerPrefix(all, i, n, Chain(dir, dir.cookies[i + n], sizes[1..]));
      } else if i == |all| {
        AtTheEnd(all, sizes[1..]);
      }
    }
  }

  /** Every request that has room for the entry it asks for gets ahead. */
  lemma {:induction false} AskingProceeds(ls: seq<Dirent>, i: nat, sizes: seq<nat>)
    requires i <= |ls|
    requires forall k, j :: 0 <= k < |sizes| && 0 <= j < |ls| ==> EntrySize(ls[j].name) <= sizes[k]
    ensures Asked(ls, i, sizes) >= (if i + |sizes| < |ls| then i + |sizes| else |ls|)
    ensures !NoRoomForSome(ls, i, sizes)
    decreases |sizes|
  {
    hide EntrySize;
    if sizes != [] {
      var n := Fit(ls[i..], sizes[0]);
      assert i < |ls| ==> ls[i..][0] == ls[i];
      assert n > 0 || i == |ls|;
      AskingProceeds(ls, i + n, sizes[1..]);
    }
  }

  /** With requests enough, each big enough for any entry, a reader sees the whole directory. */
  lemma ChainListsAll(dir: Dir, sizes: seq<nat>)
    requires dir.Valid() && |sizes| >= |dir.entries|
    requires forall k, i :: 0 <= k < |sizes| && 0 <= i < |dir.entries| ==> EntrySize(dir.entries[i].name) <= sizes[k]
    ensures Chain(dir, 0, sizes) == dir.Listing()
  {
    hide Chain; hide EntrySize;
    ChainListsInOrder(dir, 0, sizes);
    AskingProceeds(dir.Listing(), 0, sizes);
    assert dir.Listing()[0..] == dir.Listing();
  }
}
