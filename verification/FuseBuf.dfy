/** Copying between FUSE buffer vectors.

    A buffer is a stretch of bytes of an object: of a memory region, or of a file addressed
    through a seekable descriptor. The operating system may cut any transfer short or fail
    it. Bytes beyond the end of a file read as zero. */
module FuseBuf {
  import opened Prelude

  /** The largest size_t. */
  const SIZE_MAX := 0xFFFF_FFFF_FFFF_FFFF

  /** The block through which bytes go from one descriptor to another. */
  const CHUNK := 4096

  /** The byte at position pos of object obj. */
  datatype Loc = Loc(obj: nat, pos: nat)

  type Store = map<nat, seq<byte>>

  function At(st: Store, l: Loc): byte {
    if l.obj in st && l.pos < |st[l.obj]| then st[l.obj][l.pos] else 0
  }

  function Stretch(obj: nat, pos: nat, n: nat): (ls: seq<Loc>)
    ensures |ls| == n && forall i :: 0 <= i < n ==> ls[i] == Loc(obj, pos + i)
  {
    seq(n, i requires i >= 0 => Loc(obj, pos + i))
  }

  lemma StretchMembers(l: Loc, obj: nat, pos: nat, n: nat)
    ensures l in Stretch(obj, pos, n) <==> l.obj == obj && pos <= l.pos < pos + n
  {
    assert l.obj == obj && pos <= l.pos < pos + n ==> Stretch(obj, pos, n)[l.pos - pos] == l;
  }

  /** Whoever keeps references to the objects keeps them valid: none disappears or shrinks. */
  ghost predicate Grown(st: Store, st': Store) {
    st'.Keys == st.Keys && forall o :: o in st ==> |st[o]| <= |st'[o]|
  }

  /** Objects stay, and growing twice is growing. */
  lemma StillThereAll(st: Store, mid: Store, st': Store, o: nat, p: nat)
    requires o in mid && p in mid
    ensures Grown(st, st)
    ensures Grown(st, mid) && Grown(mid, st') ==> Grown(st, st') && o in st' && p in st'
  {
  }

  // ---------- what it means to copy ----------

  /** The bytes at the places ss went, in order, to the places ds, and nothing else changed. */
  ghost predicate Carried(st: Store, st': Store, ds: seq<Loc>, ss: seq<Loc>)
    requires |ds| == |ss|
  {
    && (forall i :: 0 <= i < |ds| ==> At(st', ds[i]) == At(st, ss[i]))
    && (forall l :: l !in ds ==> At(st', l) == At(st, l))
  }

  lemma CarriedNothing(st: Store, ds: seq<Loc>, ss: seq<Loc>)
    ensures Carried(st, st, ds[..0], ss[..0])
  {
  }

  /** No place is written twice and no place that is read is written. */
  ghost predicate Separate(ds: seq<Loc>, ss: seq<Loc>) {
    NoDuplicates(ds) && forall i, j :: 0 <= i < |ds| && 0 <= j < |ss| ==> ds[i] != ss[j]
  }

  /** Copying the first j places and then the next k is copying the first j + k. */
  lemma CarryOn(st: Store, mid: Store, st': Store, ds: seq<Loc>, ss: seq<Loc>, j: nat, k: nat)
    requires j + k <= |ds| && j + k <= |ss| && Separate(ds, ss)
    requires Carried(st, mid, ds[..j], ss[..j]) && Carried(mid, st', ds[j..][..k], ss[j..][..k])
    ensures Carried(st, st', ds[..j + k], ss[..j + k])
  {
    forall i | 0 <= i < j + k
      ensures At(st', ds[i]) == At(st, ss[i])
    {
      if i < j {
        assert ds[i] == ds[..j][i] && ss[i] == ss[..j][i];
        assert ds[i] !in ds[j..][..k];
      } else {
        assert ds[i] == ds[j..][..k][i - j] && ss[i] == ss[j..][..k][i - j];
        assert ss[i] !in ds[..j];
      }
    }
    forall l | l !in ds[..j + k]
      ensures At(st', l) == At(st, l)
    {
      assert ds[..j] + ds[j..][..k] == ds[..j + k];
    }
  }

  // ---------- putting bytes ----------

  /** The store that results from putting data at (obj, pos); a file grows if need be. */
  function Put(st: Store, obj: nat, pos: nat, data: seq<byte>): (st': Store)
    requires obj in st
    ensures Grown(st, st')
  {
    if data == [] then st
    else
      var was := st[obj];
      var grown := if |was| < pos then was + seq(pos - |was|, _ => 0) else was;
      st[obj := grown[..pos] + data + (if pos + |data| < |grown| then grown[pos + |data|..] else [])]
  }

  lemma PutAt(st: Store, obj: nat, pos: nat, data: seq<byte>, l: Loc)
    requires obj in st
    ensures At(Put(st, obj, pos, data), l) ==
            if l.obj == obj && pos <= l.pos < pos + |data| then data[l.pos - pos] else At(st, l)
  {
  }

  /** Bytes read from ss and put down at (obj, pos) have been carried there. */
  lemma PutCarries(st: Store, obj: nat, pos: nat, data: seq<byte>, ss: seq<Loc>)
    requires obj in st && |data| == |ss|
    requires forall i :: 0 <= i < |data| ==> data[i] == At(st, ss[i])
    ensures Carried(st, Put(st, obj, pos, data), Stretch(obj, pos, |data|), ss)
  {
    var ds := Stretch(obj, pos, |data|);
    forall i | 0 <= i < |data|
      ensures At(Put(st, obj, pos, data), ds[i]) == At(st, ss[i])
    {
      PutAt(st, obj, pos, data, ds[i]);
    }
    forall l | l !in ds
      ensures At(Put(st, obj, pos, data), l) == At(st, l)
    {
      PutAt(st, obj, pos, data, l);
      StretchMembers(l, obj, pos, |data|);
    }
  }

  /** What has not been carried yet is still where it was. */
  lemma StillThere(st: Store, mid: Store, ds: seq<Loc>, ss: seq<Loc>, j: nat)
    requires j <= |ds| == |ss| && Separate(ds, ss) && Carried(st, mid, ds[..j], ss[..j])
    ensures forall i :: 0 <= i < |ss| ==> At(mid, ss[i]) == At(st, ss[i])
  {
    forall i | 0 <= i < |ss|
      ensures At(mid, ss[i]) == At(st, ss[i])
    {
      assert ss[i] !in ds[..j];
    }
  }

  lemma StretchPart(obj: nat, pos: nat, n: nat, j: nat, k: nat)
    requires j + k <= n
    ensures Stretch(obj, pos, n)[j..][..k] == Stretch(obj, pos + j, k)
  {
  }

  /** One more piece written. */
  lemma WrittenPart(st: Store, mid: Store, st': Store, obj: nat, pos: nat, data: seq<byte>, ss: seq<Loc>,
                    j: nat, k: nat)
    requires obj in mid && |ss| == |data| && j + k <= |data|
    requires Separate(Stretch(obj, pos, |data|), ss)
    requires forall i :: 0 <= i < |data| ==> data[i] == At(st, ss[i])
    requires Carried(st, mid, Stretch(obj, pos, |data|)[..j], ss[..j])
    requires st' == Put(mid, obj, pos + j, data[j..][..k])
    ensures Carried(st, st', Stretch(obj, pos, |data|)[..j + k], ss[..j + k])
  {
    hide At; hide Put; hide Stretch; hide Separate; hide Carried;
    var ds := Stretch(obj, pos, |data|);
    StillThere(st, mid, ds, ss, j);
    StretchPart(obj, pos, |data|, j, k);
    forall i | 0 <= i < k
      ensures data[j..][..k][i] == At(mid, ss[j..][..k][i])
    {
      assert data[j..][..k][i] == data[j + i] && ss[j..][..k][i] == ss[j + i];
    }
    PutCarries(mid, obj, pos + j, data[j..][..k], ss[j..][..k]);
    CarryOn(st, mid, st', ds, ss, j, k);
  }

  // ---------- buffers ----------

  /** isFd: a file, otherwise memory. retry: transfers are repeated until done, failed or at
      the end of the file. */
  datatype Buf = Buf(size: nat, isFd: bool, retry: bool, obj: nat, pos: nat) {
    /** The places of the n bytes at offset off of this buffer. */
    function Places(off: nat, n: nat): seq<Loc> {
      Stretch(obj, pos + off, n)
    }

    ghost predicate Backed(st: Store) {
      obj in st && (!isFd ==> pos + size <= |st[obj]|)
    }
  }

  /** Everything from offset off of buffer idx on: the flattened remainder of a vector. */
  function Locs(bufs: seq<Buf>, idx: nat, off: nat): (ls: seq<Loc>)
    decreases |bufs| - idx
  {
    if idx < |bufs| && off <= bufs[idx].size then
      bufs[idx].Places(off, bufs[idx].size - off) + Locs(bufs, idx + 1, 0)
    else []
  }

  lemma {:induction false} LocsReachLast(bufs: seq<Buf>, idx: nat)
    requires idx < |bufs| && bufs[|bufs| - 1].size > 0
    ensures Locs(bufs, idx, 0) != []
    decreases |bufs| - idx
  {
    if idx < |bufs| - 1 {
      LocsReachLast(bufs, idx + 1);
    }
  }

  /** How far the k-th byte from the cursor reaches into its buffer, or into what was left of it. */
  function Into(bufs: seq<Buf>, idx: nat, off: nat, k: nat): nat
    decreases |bufs| - idx
  {
    if idx < |bufs| && off <= bufs[idx].size && k > bufs[idx].size - off then
      Into(bufs, idx + 1, 0, k - (bufs[idx].size - off))
    else k
  }

  /** Where a cursor that began at (idx0, off0) entered buffer idx. */
  function Entry(idx0: nat, off0: nat, idx: nat): nat {
    if idx == idx0 then off0 else 0
  }

  /** A cursor at (idx, off) that began at (idx0, off0) has k bytes behind it; the next r are in its
      buffer. */
  lemma {:induction false} IntoAt(bufs: seq<Buf>, idx0: nat, off0: nat, idx: nat, off: nat, r: nat) returns (k: nat)
    requires idx0 <= idx < |bufs| && off0 <= bufs[idx0].size && Entry(idx0, off0, idx) <= off
    requires 0 < r && off + r <= bufs[idx].size
    ensures |Locs(bufs, idx0, off0)| == k + |Locs(bufs, idx, off)|
    ensures Into(bufs, idx0, off0, k + r) == r + off - Entry(idx0, off0, idx)
    decreases idx - idx0
  {
    if idx == idx0 {
      k := off - off0;
    } else {
      var rest := IntoAt(bufs, idx0 + 1, 0, idx, off, r);
      k := bufs[idx0].size - off0 + rest;
    }
  }

  /** How far the destination's cursor stays behind when res bytes have been copied: not at all,
      unless the source has been used up; then by the last stretch of bytes that lies in one buffer
      on both sides. */
  function Lag(sbufs: seq<Buf>, sidx: nat, soff: nat, dbufs: seq<Buf>, didx: nat, doff: nat, res: int): nat {
    if sbufs != [] && sbufs[|sbufs| - 1].size > 0 && 0 < res == |Locs(sbufs, sidx, soff)| then
      Min(Into(sbufs, sidx, soff, res), Into(dbufs, didx, doff, res))
    else 0
  }

  lemma {:induction false} IntoIsPositive(bufs: seq<Buf>, idx: nat, off: nat, k: nat)
    requires k > 0
    ensures Into(bufs, idx, off, k) > 0
    decreases |bufs| - idx
  {
    if idx < |bufs| && off <= bufs[idx].size && k > bufs[idx].size - off {
      IntoIsPositive(bufs, idx + 1, 0, k - (bufs[idx].size - off));
    }
  }

  /** The last round uses the source up with r bytes from where one of the cursors entered its buffer. */
  lemma LastRound(sbufs: seq<Buf>, sidx0: nat, soff0: nat, sidx: nat, soff: nat,
                  dbufs: seq<Buf>, didx0: nat, doff0: nat, didx: nat, doff: nat, copied: nat, r: nat)
    requires sidx0 <= sidx < |sbufs| && soff0 <= sbufs[sidx0].size && Entry(sidx0, soff0, sidx) <= soff
    requires didx0 <= didx < |dbufs| && doff0 <= dbufs[didx0].size && Entry(didx0, doff0, didx) <= doff
    requires soff == Entry(sidx0, soff0, sidx) || doff == Entry(didx0, doff0, didx)
    requires |Locs(sbufs, sidx0, soff0)| == copied + |Locs(sbufs, sidx, soff)|
    requires |Locs(dbufs, didx0, doff0)| == copied + |Locs(dbufs, didx, doff)|
    requires 0 < r && soff + r == sbufs[sidx].size && sidx + 1 == |sbufs| && doff + r <= dbufs[didx].size
    ensures copied + r == |Locs(sbufs, sidx0, soff0)|
    ensures r == Lag(sbufs, sidx0, soff0, dbufs, didx0, doff0, copied + r)
  {
    hide Locs; hide Into;
    var j := IntoAt(sbufs, sidx0, soff0, sidx, soff, r);
    var k := IntoAt(dbufs, didx0, doff0, didx, doff, r);
    LocsOfLast(sbufs, soff);
    assert j == copied && k == copied;
    var a, b := Into(sbufs, sidx0, soff0, copied + r), Into(dbufs, didx0, doff0, copied + r);
    assert a == r + soff - Entry(sidx0, soff0, sidx) && b == r + doff - Entry(didx0, doff0, didx);
    assert Min(a, b) == r;
    assert sbufs[|sbufs| - 1].size > 0;
  }

  lemma NoLag(sbufs: seq<Buf>, sidx: nat, soff: nat, dbufs: seq<Buf>, didx: nat, doff: nat, res: int)
    requires res <= 0 || res < |Locs(sbufs, sidx, soff)| || (sbufs != [] && sbufs[|sbufs| - 1].size == 0)
    ensures Lag(sbufs, sidx, soff, dbufs, didx, doff, res) == 0
  {
  }

  lemma LocsOfLast(bufs: seq<Buf>, off: nat)
    requires bufs != [] && off <= bufs[|bufs| - 1].size
    ensures |Locs(bufs, |bufs| - 1, off)| == bufs[|bufs| - 1].size - off
  {
    LocsEnd(bufs, |bufs|, 0);
  }

  lemma LocsEnd(bufs: seq<Buf>, idx: nat, off: nat)
    ensures idx >= |bufs| ==> Locs(bufs, idx, off) == []
  {
  }

  function TotalSize(bufs: seq<Buf>): nat {
    if bufs == [] then 0 else TotalSize(bufs[..|bufs| - 1]) + bufs[|bufs| - 1].size
  }

  class BufVec {
    const bufs: seq<Buf>
    var idx: nat
    var off: nat

    constructor (bufs: seq<Buf>)
      ensures this.bufs == bufs && idx == 0 && off == 0
    {
      this.bufs, idx, off := bufs, 0, 0;
    }

    ghost predicate Valid()
      reads this
    {
      idx <= |bufs| && (idx < |bufs| ==> off <= bufs[idx].size)
    }

    ghost function Remaining(): seq<Loc>
      reads this
    {
      Locs(bufs, idx, off)
    }

    /** fuse_bufvec_advance */
    method Advance(len: nat) returns (more: bool)
      requires Valid() && idx < |bufs| && off + len <= bufs[idx].size
      modifies this
      ensures Valid() && |old(Remaining())| >= len && Remaining() == old(Remaining())[len..]
      ensures more <==> idx < |bufs|
      ensures idx == if old(off) + len == bufs[old(idx)].size then old(idx) + 1 else old(idx)
      ensures idx == old(idx) ==> off == old(off) + len
      ensures idx > old(idx) && idx < |bufs| ==> off == 0
      ensures idx == |bufs| ==> Remaining() == []
      ensures idx < |bufs| && bufs[|bufs| - 1].size > 0 ==> Remaining() != []
    {
      AdvanceWithin(bufs, idx, off, len);
      off := off + len;
      if off == bufs[idx].size {
        AdvancePast(bufs, idx);
        idx := idx + 1;
        if idx == |bufs| {
          return false;
        }
        off := 0;
        if bufs[|bufs| - 1].size > 0 {
          LocsReachLast(bufs, idx);
        }
      }
      return true;
    }

    /** fuse_buf_size: modulo 2^64 the bytes of all buffers, or, if some have the largest size, that
        size and the bytes behind the last of them. */
    method Size() returns (size: nat)
      ensures size == CountedSize(bufs) % (SIZE_MAX + 1)
    {
      hide TotalSize;
      var i: nat := 0;
      size := 0;
      assert bufs[..0] == [];
      while i < |bufs|
        invariant i <= |bufs| && size == CountedSize(bufs[..i]) % (SIZE_MAX + 1)
      {
        assert bufs[..i + 1][..i] == bufs[..i];
        WrapOnce(CountedSize(bufs[..i]), bufs[i].size);
        if bufs[i].size == SIZE_MAX {
          size := SIZE_MAX;
        } else {
          size := (size + bufs[i].size) % (SIZE_MAX + 1);
        }
        i := i + 1;
      }
      assert bufs[..i] == bufs;
    }
  }

  lemma WrapOnce(a: nat, b: nat)
    ensures (a % (SIZE_MAX + 1) + b) % (SIZE_MAX + 1) == (a + b) % (SIZE_MAX + 1)
  {
    var w := SIZE_MAX + 1;
    assert a == a / w * w + a % w;
    assert (a % w + b) % w == (a / w * w + (a % w + b)) % w;
  }

  function CountedSize(bufs: seq<Buf>): nat {
    if bufs == [] then 0
    else
      var last := bufs[|bufs| - 1].size;
      if last == SIZE_MAX then SIZE_MAX else CountedSize(bufs[..|bufs| - 1]) + last
  }

  /** What is counted: everything from the last buffer of the largest size on. */
  lemma {:induction false} CountedFrom(bufs: seq<Buf>, k: nat)
    requires k <= |bufs| && (0 < k ==> bufs[k - 1].size == SIZE_MAX)
    requires forall i :: k <= i < |bufs| ==> bufs[i].size != SIZE_MAX
    ensures CountedSize(bufs) == (if k > 0 then SIZE_MAX else 0) + TotalSize(bufs[k..])
    decreases |bufs|
  {
    if k < |bufs| {
      var front := bufs[..|bufs| - 1];
      CountedFrom(front, k);
      assert bufs[k..][..|bufs| - k - 1] == front[k..];
    } else {
      assert bufs[k..] == [];
    }
  }

  lemma AdvanceWithin(bufs: seq<Buf>, idx: nat, off: nat, len: nat)
    requires idx < |bufs| && off + len <= bufs[idx].size
    ensures |Locs(bufs, idx, off)| >= len && Locs(bufs, idx, off + len) == Locs(bufs, idx, off)[len..]
  {
  }

  lemma AdvancePast(bufs: seq<Buf>, idx: nat)
    requires idx < |bufs|
    ensures Locs(bufs, idx, bufs[idx].size) == Locs(bufs, idx + 1, 0)
  {
  }

  // ---------- transfers ----------

  /** A pread or pwrite: where, how many bytes it was asked for and how many it moved, or minus the
      error number. */
  datatype Transfer = Transfer(write: bool, obj: nat, pos: nat, asked: nat, got: int)

  function Outcome(res: int, errno: int): int {
    if res == -1 then -errno else res
  }

  function Moved(ts: seq<Transfer>): nat {
    if ts == [] then 0
    else Moved(ts[..|ts| - 1]) + if ts[|ts| - 1].got > 0 then ts[|ts| - 1].got else 0
  }

  /** Transfer t asks for what is left of len bytes from pos on when k are done. */
  predicate AsksForRest(t: Transfer, write: bool, obj: nat, pos: nat, len: nat, k: nat) {
    k <= len && t == Transfer(write, obj, pos + k, len - k, t.got) && t.got <= len - k
  }

  /** So far: each transfer asks for what the ones before have left, and all have moved something. */
  ghost predicate Going(ts: seq<Transfer>, write: bool, obj: nat, pos: nat, len: nat) {
    && Moved(ts) <= len
    && forall i :: 0 <= i < |ts| ==>
         AsksForRest(ts[i], write, obj, pos, len, Moved(ts[..i])) && ts[i].got > 0
  }

  /** How len bytes from pos on are transferred. As long as something is left the rest is asked for;
      only if transfers are to be repeated is there another after one that moved something, and then
      there is until nothing is left. */
  ghost predicate Attempts(ts: seq<Transfer>, write: bool, obj: nat, pos: nat, len: nat, retry: bool) {
    if ts == [] then len == 0
    else
      var front, last := ts[..|ts| - 1], ts[|ts| - 1];
      && Going(front, write, obj, pos, len) && Moved(front) < len
      && AsksForRest(last, write, obj, pos, len, Moved(front))
      && (!retry ==> |ts| == 1)
      && (retry ==> last.got <= 0 || Moved(ts) == len)
  }

  predicate FailsAtOnce(ts: seq<Transfer>) {
    ts != [] && ts[0].got < 0
  }

  /** What the caller is told: the error if the first transfer failed, otherwise what was moved. */
  predicate Tells(ts: seq<Transfer>, res: int) {
    if FailsAtOnce(ts) then res == ts[0].got else res == Moved(ts)
  }

  lemma GoingOn(ts: seq<Transfer>, t: Transfer, write: bool, obj: nat, pos: nat, len: nat)
    requires Going(ts, write, obj, pos, len) && AsksForRest(t, write, obj, pos, len, Moved(ts)) && t.got > 0
    ensures Moved(ts + [t]) == Moved(ts) + t.got && Going(ts + [t], write, obj, pos, len)
    ensures (ts + [t])[0].got >= 0
  {
    assert (ts + [t])[..|ts|] == ts;
    forall i | 0 <= i < |ts|
      ensures (ts + [t])[..i] == ts[..i]
    {
    }
  }

  lemma LastAttempt(ts: seq<Transfer>, t: Transfer, write: bool, obj: nat, pos: nat, len: nat, retry: bool)
    requires Going(ts, write, obj, pos, len) && AsksForRest(t, write, obj, pos, len, Moved(ts)) && Moved(ts) < len
    requires !retry ==> ts == []
    requires retry ==> t.got <= 0 || Moved(ts) + t.got == len
    ensures Attempts(ts + [t], write, obj, pos, len, retry)
    ensures Moved(ts + [t]) == Moved(ts) + if t.got > 0 then t.got else 0
    ensures if ts == [] && t.got < 0 then Tells(ts + [t], t.got) else Tells(ts + [t], Moved(ts + [t]))
  {
    assert (ts + [t])[..|ts|] == ts;
    if ts != [] {
      assert AsksForRest(ts[0], write, obj, pos, len, Moved(ts[..0]));
    }
  }

  /** Before the first transfer. */
  lemma NoAttempt(write: bool, obj: nat, pos: nat, len: nat, retry: bool)
    ensures Moved([]) == 0 && Going([], write, obj, pos, len)
    ensures len == 0 ==> Attempts([], write, obj, pos, len, retry) && Tells([], 0)
  {
  }

  /** One more transfer, after those of ts: either it is the last or the next may follow. */
  lemma OneMoreAttempt(ts: seq<Transfer>, t: Transfer, write: bool, obj: nat, pos: nat, len: nat, retry: bool)
    requires Going(ts, write, obj, pos, len) && t == Transfer(write, obj, pos + Moved(ts), len - Moved(ts), t.got)
    requires Moved(ts) < len && t.got <= len - Moved(ts) && (!retry ==> ts == [])
    ensures Moved(ts + [t]) == Moved(ts) + if t.got > 0 then t.got else 0
    ensures t.got > 0 ==> Going(ts + [t], write, obj, pos, len)
    ensures t.got <= 0 || !retry || Moved(ts) + t.got == len ==> Attempts(ts + [t], write, obj, pos, len, retry)
    ensures if ts == [] && t.got < 0 then Tells(ts + [t], t.got) else Tells(ts + [t], Moved(ts + [t]))
  {
    hide Going; hide Attempts; hide Moved;
    if t.got <= 0 || !retry || Moved(ts) + t.got == len {
      LastAttempt(ts, t, write, obj, pos, len, retry);
    }
    if t.got > 0 {
      GoingOn(ts, t, write, obj, pos, len);
    }
  }

  /** One round from descriptor to descriptor: transfers that read a block and those that write it. */
  datatype Relay = Relay(ins: seq<Transfer>, outs: seq<Transfer>)

  function Relayed(rs: seq<Relay>): nat {
    if rs == [] then 0 else Relayed(rs[..|rs| - 1]) + Moved(rs[|rs| - 1].outs)
  }

  function RelayLog(rs: seq<Relay>): seq<Transfer> {
    if rs == [] then [] else RelayLog(rs[..|rs| - 1]) + rs[|rs| - 1].ins + rs[|rs| - 1].outs
  }

  /** With k of len bytes done: a block is read, and what was read of it is written. */
  ghost predicate RelaysBlock(r: Relay, dst: Buf, dstPos: nat, src: Buf, srcPos: nat, len: nat, k: nat) {
    && k < len && Attempts(r.ins, false, src.obj, srcPos + k, Min(4096, len - k), src.retry)
    && Attempts(r.outs, true, dst.obj, dstPos + k, Moved(r.ins), dst.retry)
  }

  /** A block that was not read and written whole is the last, even if something is left. */
  ghost predicate WholeBlock(r: Relay, len: nat, k: nat) {
    k <= len && Moved(r.outs) == Min(4096, len - k)
  }

  ghost predicate RelaysOn(rs: seq<Relay>, dst: Buf, dstPos: nat, src: Buf, srcPos: nat, len: nat) {
    forall i :: 0 <= i < |rs| ==>
      RelaysBlock(rs[i], dst, dstPos, src, srcPos, len, Relayed(rs[..i])) && WholeBlock(rs[i], len, Relayed(rs[..i]))
  }

  ghost predicate Relays(rs: seq<Relay>, dst: Buf, dstPos: nat, src: Buf, srcPos: nat, len: nat) {
    if rs == [] then len == 0
    else
      var front, last := rs[..|rs| - 1], rs[|rs| - 1];
      && RelaysOn(front, dst, dstPos, src, srcPos, len)
      && RelaysBlock(last, dst, dstPos, src, srcPos, len, Relayed(front))
      && (WholeBlock(last, len, Relayed(front)) ==> Relayed(rs) == len)
  }

  lemma NothingFails()
    ensures !FailsAtOnce([])
  {
  }

  predicate NobodyFailed(r: Relay) {
    !FailsAtOnce(r.ins) && !FailsAtOnce(r.outs)
  }

  function ErrorOf(r: Relay): int
    requires !NobodyFailed(r)
  {
    if FailsAtOnce(r.ins) then r.ins[0].got else r.outs[0].got
  }

  predicate RelayTells(rs: seq<Relay>, res: int) {
    if rs != [] && !NobodyFailed(rs[0]) then res == ErrorOf(rs[0]) else res == Relayed(rs)
  }

  lemma NoRelay(dst: Buf, dstPos: nat, src: Buf, srcPos: nat, len: nat)
    ensures Relayed([]) == 0 && RelayLog([]) == [] && RelaysOn([], dst, dstPos, src, srcPos, len)
    ensures len == 0 ==> Relays([], dst, dstPos, src, srcPos, len) && RelayTells([], 0)
  {
  }

  /** One more block, after those of rs. */
  lemma OneMoreRelay(rs: seq<Relay>, r: Relay, dst: Buf, dstPos: nat, src: Buf, srcPos: nat, len: nat)
    requires RelaysOn(rs, dst, dstPos, src, srcPos, len)
    requires RelaysBlock(r, dst, dstPos, src, srcPos, len, Relayed(rs))
    ensures Relayed(rs + [r]) == Relayed(rs) + Moved(r.outs)
    ensures RelayLog(rs + [r]) == RelayLog(rs) + r.ins + r.outs
    ensures WholeBlock(r, len, Relayed(rs)) ==> RelaysOn(rs + [r], dst, dstPos, src, srcPos, len)
    ensures !WholeBlock(r, len, Relayed(rs)) || Relayed(rs + [r]) == len ==>
              Relays(rs + [r], dst, dstPos, src, srcPos, len)
    ensures if rs == [] && !NobodyFailed(r) then RelayTells(rs + [r], ErrorOf(r))
            else rs == [] || NobodyFailed(rs[0]) ==> RelayTells(rs + [r], Relayed(rs + [r]))
  {
    hide RelaysBlock; hide WholeBlock; hide Moved;
    var all := rs + [r];
    assert all[..|rs|] == rs;
    forall i | 0 <= i < |rs|
      ensures all[..i] == rs[..i]
    {
    }
  }

  /** What was moved, moved without an error at the beginning. */
  lemma MovedUnlessFailed(ts: seq<Transfer>, write: bool, obj: nat, pos: nat, len: nat, retry: bool, res: int)
    requires Attempts(ts, write, obj, pos, len, retry) && Tells(ts, res)
    ensures res < 0 <==> FailsAtOnce(ts)
    ensures res < 0 ==> Moved(ts) == 0 && res == ts[0].got
    ensures res >= 0 ==> Moved(ts) == res
  {
    assert ts != [] ==> forall i :: 0 <= i < |ts| - 1 ==> ts[..|ts| - 1][i].got > 0 && ts[..|ts| - 1][i] == ts[i];
    assert ts != [] ==> ts[..0] == [];
  }

  /** After the blocks of rs another one, of which put bytes were written, or none because of an error. */
  lemma BlockRelayed(rs: seq<Relay>, r: Relay, dst: Buf, dstPos: nat, src: Buf, srcPos: nat, len: nat, k: nat, put: int)
    requires RelaysOn(rs, dst, dstPos, src, srcPos, len) && Relayed(rs) == k < len && put <= Min(CHUNK, len - k)
    requires RelaysBlock(r, dst, dstPos, src, srcPos, len, k) && Moved(r.outs) == if put > 0 then put else 0
    requires (put < 0 <==> !NobodyFailed(r)) && (put < 0 ==> put == ErrorOf(r)) && (rs == [] || NobodyFailed(rs[0]))
    ensures Relayed(rs + [r]) == k + (if put > 0 then put else 0)
    ensures RelayLog(rs + [r]) == RelayLog(rs) + r.ins + r.outs
    ensures put < Min(CHUNK, len - k) || k + put == len ==> Relays(rs + [r], dst, dstPos, src, srcPos, len)
    ensures put == Min(CHUNK, len - k) ==> RelaysOn(rs + [r], dst, dstPos, src, srcPos, len)
    ensures RelayTells(rs + [r], if rs == [] && put < 0 then put else Relayed(rs + [r]))
    ensures put >= 0 ==> NobodyFailed((rs + [r])[0])
  {
    hide Attempts; hide RelaysOn; hide Relays; hide RelayLog; hide Relayed; hide Moved;
    OneMoreRelay(rs, r, dst, dstPos, src, srcPos, len);
  }

  lemma OneRelay(r: Relay)
    ensures RelayLog([]) == [] && RelayLog([r]) == r.ins + r.outs
  {
    assert [r][..0] == [] && RelayLog([r]) == RelayLog([]) + r.ins + r.outs;
    assert [] + r.ins == r.ins;
  }

  // ---------- the results of several copies ----------

  function Total(os: seq<int>): nat {
    if os == [] then 0 else Total(os[..|os| - 1]) + if os[|os| - 1] > 0 then os[|os| - 1] else 0
  }

  predicate AllMoved(os: seq<int>) {
    forall i :: 0 <= i < |os| ==> os[i] >= 0
  }

  /** No copy follows one that failed; the caller is told the error if nothing has been copied before,
      and what has been copied otherwise. */
  predicate Told(os: seq<int>, res: int) {
    if os == [] then res == 0
    else
      var front, last := os[..|os| - 1], os[|os| - 1];
      AllMoved(front) && res == if last < 0 && Total(front) == 0 then last else Total(os)
  }

  lemma NoneYet()
    ensures AllMoved([]) && Total([]) == 0 && Told([], 0)
  {
  }

  lemma OneMore(os: seq<int>, r: int)
    requires AllMoved(os)
    ensures var more := os + [r];
            && Total(more) == Total(os) + (if r > 0 then r else 0) && (r >= 0 ==> AllMoved(more))
            && Told(more, if r < 0 && Total(os) == 0 then r else Total(more))
  {
    assert (os + [r])[..|os|] == os;
  }

  // ---------- the operating system and memory ----------

  class World {
    var objs: Store
    /** Whether the operating system has failed a transfer, or moved fewer bytes than it was
        asked to. */
    ghost var cutShort: bool
    ghost var log: seq<Transfer>
    /** What fuse_buf_copy_one returned, call after call. */
    ghost var ones: seq<int>

    constructor (objs: Store)
      ensures this.objs == objs && !cutShort && log == [] && ones == []
    {
      this.objs, cutShort, log, ones := objs, false, [], [];
    }

    /** pwrite(2): some of the bytes, or none and an error number. */
    method Pwrite(obj: nat, data: seq<byte>, pos: nat) returns (res: int, errno: int)
      requires obj in objs
      modifies this`objs, this`cutShort, this`log
      ensures -1 <= res <= |data| && errno > 0 && cutShort == (old(cutShort) || res < |data|)
      ensures log == old(log) + [Transfer(true, obj, pos, |data|, Outcome(res, errno))]
      ensures objs == if res > 0 then Put(old(objs), obj, pos, data[..res]) else old(objs)
    {
      errno :| errno > 0;
      res :| -1 <= res <= |data|;
      log := log + [Transfer(true, obj, pos, |data|, Outcome(res, errno))];
      cutShort := cutShort || res < |data|;
      if res > 0 {
        objs := Put(objs, obj, pos, data[..res]);
      }
    }

    /** pread(2): some of the bytes up to the end of the file, or none and an error number. */
    method Pread(obj: nat, len: nat, pos: nat) returns (res: int, errno: int, data: seq<byte>)
      requires obj in objs
      modifies this`cutShort, this`log
      ensures log == old(log) + [Transfer(false, obj, pos, len, Outcome(res, errno))]
      ensures -1 <= res <= len && errno > 0 && cutShort == (old(cutShort) || res < len)
      ensures |data| == (if res > 0 then res else 0)
      ensures forall i :: 0 <= i < |data| ==> data[i] == At(objs, Loc(obj, pos + i))
    {
      errno :| errno > 0;
      var have := if pos < |objs[obj]| then Min(len, |objs[obj]| - pos) else 0;
      res :| -1 <= res <= have;
      log := log + [Transfer(false, obj, pos, len, Outcome(res, errno))];
      cutShort := cutShort || res < len;
      data := if res > 0 then objs[obj][pos..pos + res] else [];
    }

    /** fuse_buf_write: bytes at hand go to a descriptor. ss: where those bytes come from. */
    method WriteOut(dst: Buf, dstOff: nat, data: seq<byte>, ghost ss: seq<Loc>)
      returns (res: int, ghost ts: seq<Transfer>)
      requires dst.obj in objs && |ss| == |data|
      requires Separate(Stretch(dst.obj, dst.pos + dstOff, |data|), ss)
      requires forall i :: 0 <= i < |data| ==> data[i] == At(objs, ss[i])
      modifies this`objs, this`cutShort, this`log
      ensures res <= |data| && Grown(old(objs), objs)
      ensures res <= 0 ==> objs == old(objs)
      ensures res >= 0 ==> Carried(old(objs), objs, Stretch(dst.obj, dst.pos + dstOff, |data|)[..res], ss[..res])
      ensures (old(cutShort) ==> cutShort) && (res == |data| || cutShort)
      ensures log == old(log) + ts && Tells(ts, res)
      ensures Attempts(ts, true, dst.obj, dst.pos + dstOff, |data|, dst.retry)
    {
      hide Carried; hide Separate; hide Put; hide At; hide Going; hide Attempts; hide Tells; hide Moved;
      hide AsksForRest;
      ts := [];
      var copied: nat, srcOff: nat, off: nat, len: nat := 0, 0, dstOff, |data|;
      ghost var ds, at := Stretch(dst.obj, dst.pos + dstOff, |data|), dst.pos + dstOff;
      CarriedNothing(objs, ds, ss);
      NoAttempt(true, dst.obj, at, |data|, dst.retry);
      while len != 0
        invariant srcOff == copied && copied + len == |data| && off == dstOff + copied
        invariant Grown(old(objs), objs) && Carried(old(objs), objs, ds[..copied], ss[..copied])
        invariant (copied == 0 ==> objs == old(objs)) && (old(cutShort) ==> cutShort)
        invariant log == old(log) + ts && Moved(ts) == copied && Going(ts, true, dst.obj, at, |data|)
        invariant (ts == [] <==> copied == 0) && (!dst.retry && len > 0 ==> ts == [])
        invariant len == 0 ==> Attempts(ts, true, dst.obj, at, |data|, dst.retry) && Tells(ts, copied)
        decreases len
      {
        ghost var mid := objs;
        var r, errno := Pwrite(dst.obj, data[srcOff..], dst.pos + off);
        ghost var t := Transfer(true, dst.obj, dst.pos + off, len, Outcome(r, errno));
        OneMoreAttempt(ts, t, true, dst.obj, at, |data|, dst.retry);
        ts := ts + [t];
        if r == -1 {
          if copied == 0 {
            return -errno, ts;
          }
          break;
        }
        if r == 0 {
          break;
        }
        WrittenPart(old(objs), mid, objs, dst.obj, dst.pos + dstOff, data, ss, copied, r);
        copied := copied + r;
        if !dst.retry {
          break;
        }
        srcOff := srcOff + r;
        off := off + r;
        len := len - r;
      }
      res := copied;
    }

    /** fuse_buf_read up to handing the bytes over: a descriptor is read. */
    method ReadIn(src: Buf, srcOff: nat, len: nat) returns (res: int, data: seq<byte>, ghost ts: seq<Transfer>)
      requires src.obj in objs
      modifies this`cutShort, this`log
      ensures (old(cutShort) ==> cutShort) && (res == len || cutShort)
      ensures res <= len && |data| == (if res > 0 then res else 0)
      ensures forall i :: 0 <= i < |data| ==> data[i] == At(objs, src.Places(srcOff, len)[i])
      ensures log == old(log) + ts && Tells(ts, res)
      ensures Attempts(ts, false, src.obj, src.pos + srcOff, len, src.retry)
    {
      hide At; hide Going; hide Attempts; hide Tells; hide Moved; hide AsksForRest;
      var off: nat, left: nat := srcOff, len;
      ghost var at := src.pos + srcOff;
      data, ts := [], [];
      NoAttempt(false, src.obj, at, len, src.retry);
      while left != 0
        invariant |data| + left == len && off == srcOff + |data| && (old(cutShort) ==> cutShort)
        invariant forall i :: 0 <= i < |data| ==> data[i] == At(objs, Loc(src.obj, src.pos + srcOff + i))
        invariant log == old(log) + ts && Moved(ts) == |data| && Going(ts, false, src.obj, at, len)
        invariant (ts == [] <==> data == []) && (!src.retry && left > 0 ==> ts == [])
        invariant left == 0 ==> Attempts(ts, false, src.obj, at, len, src.retry) && Tells(ts, |data|)
        decreases left
      {
        var r, errno, part := Pread(src.obj, left, src.pos + off);
        ghost var t := Transfer(false, src.obj, src.pos + off, left, Outcome(r, errno));
        OneMoreAttempt(ts, t, false, src.obj, at, len, src.retry);
        ts := ts + [t];
        if r == -1 {
          if |data| == 0 {
            return -errno, [], ts;
          }
          break;
        }
        if r == 0 {
          break;
        }
        data := data + part;
        if !src.retry {
          break;
        }
        off := off + r;
        left := left - r;
      }
      res := |data|;
    }

    /** One block of fuse_buf_fd_to_fd: it is read, and what has been read is written. */
    method CopyBlock(dst: Buf, to: nat, src: Buf, from: nat, thisLen: nat) returns (res: int, ghost r: Relay)
      requires dst.obj in objs && src.obj in objs
      requires Separate(dst.Places(to, thisLen), src.Places(from, thisLen))
      modifies this`objs, this`cutShort, this`log
      ensures res <= thisLen && Grown(old(objs), objs)
      ensures res <= 0 ==> objs == old(objs)
      ensures res >= 0 ==> Carried(old(objs), objs, dst.Places(to, thisLen)[..res], src.Places(from, thisLen)[..res])
      ensures (old(cutShort) ==> cutShort) && (res == thisLen || cutShort)
      ensures log == old(log) + r.ins + r.outs && Moved(r.outs) == if res > 0 then res else 0
      ensures (res < 0 <==> !NobodyFailed(r)) && (res < 0 ==> res == ErrorOf(r))
      ensures Attempts(r.ins, false, src.obj, src.pos + from, thisLen, src.retry)
      ensures Attempts(r.outs, true, dst.obj, dst.pos + to, Moved(r.ins), dst.retry)
    {
      hide Carried; hide Separate; hide Put; hide At; hide Attempts; hide Tells; hide Moved; hide FailsAtOnce;
      ghost var ds, ss := dst.Places(to, thisLen), src.Places(from, thisLen);
      CarriedNothing(objs, ds, ss);
      NoAttempt(true, dst.obj, dst.pos + to, 0, dst.retry);
      NothingFails();
      var got, data;
      ghost var ins, outs;
      got, data, ins := ReadIn(src, from, thisLen);
      MovedUnlessFailed(ins, false, src.obj, src.pos + from, thisLen, src.retry, got);
      if got <= 0 {
        return got, Relay(ins, []);
      }
      SeparatePart(ds, ss, 0, got);
      PlacesPart(dst, to, thisLen, 0, thisLen, got);
      PlacesPart(src, from, thisLen, 0, thisLen, got);
      assert ds[0..][..got] == ds[..got] && ss[0..][..got] == ss[..got];
      assert ds[0..] == ds && ss[0..] == ss;
      res, outs := WriteOut(dst, to, data, ss[..got]);
      MovedUnlessFailed(outs, true, dst.obj, dst.pos + to, got, dst.retry, res);
      r := Relay(ins, outs);
      assert res >= 0 ==> ds[..got][..res] == ds[..res] && ss[..got][..res] == ss[..res];
    }

    /** fuse_buf_fd_to_fd: through a block of CHUNK bytes, until one is not copied whole. */
    method FdToFd(dst: Buf, dstOff: nat, src: Buf, srcOff: nat, len: nat) returns (res: int, ghost rs: seq<Relay>)
      requires dst.obj in objs && src.obj in objs
      requires Separate(dst.Places(dstOff, len), src.Places(srcOff, len))
      modifies this`objs, this`cutShort, this`log
      ensures res <= len && Grown(old(objs), objs)
      ensures res <= 0 ==> objs == old(objs)
      ensures res >= 0 ==> Carried(old(objs), objs, dst.Places(dstOff, len)[..res], src.Places(srcOff, len)[..res])
      ensures (old(cutShort) ==> cutShort) && (res == len || cutShort)
      ensures log == old(log) + RelayLog(rs) && RelayTells(rs, res)
      ensures Relays(rs, dst, dst.pos + dstOff, src, src.pos + srcOff, len)
    {
      hide Carried; hide Separate; hide Put; hide At; hide Attempts; hide Tells; hide Moved; hide RelaysOn;
      hide Relays; hide RelayTells; hide RelayLog; hide Relayed; hide FailsAtOnce; hide WholeBlock; hide Grown;
      hide NobodyFailed;
      var copied: nat, to: nat, from: nat, left: nat := 0, dstOff, srcOff, len;
      ghost var ds, ss := dst.Places(dstOff, len), src.Places(srcOff, len);
      ghost var dpos, spos := dst.pos + dstOff, src.pos + srcOff;
      CarriedNothing(objs, ds, ss);
      StillThereAll(objs, objs, objs, dst.obj, src.obj);
      rs := [];
      NoRelay(dst, dpos, src, spos, len);
      while left != 0
        invariant copied + left == len && to == dstOff + copied && from == srcOff + copied
        invariant dst.obj in objs && src.obj in objs && Grown(old(objs), objs)
        invariant Carried(old(objs), objs, ds[..copied], ss[..copied])
        invariant (copied == 0 ==> objs == old(objs)) && (old(cutShort) ==> cutShort)
        invariant log == old(log) + RelayLog(rs) && Relayed(rs) == copied && (rs == [] <==> copied == 0)
        invariant RelaysOn(rs, dst, dpos, src, spos, len) && (rs == [] || NobodyFailed(rs[0]))
        invariant left == 0 ==> Relays(rs, dst, dpos, src, spos, len) && RelayTells(rs, copied)
        decreases left
      {
        var thisLen := Min(CHUNK, left);
        ghost var mid := objs;
        SeparatePart(ds, ss, copied, thisLen);
        PlacesPart(dst, dstOff, len, copied, thisLen, thisLen);
        PlacesPart(src, srcOff, len, copied, thisLen, thisLen);
        assert dst.Places(to, thisLen)[..thisLen] == dst.Places(to, thisLen);
        assert src.Places(from, thisLen)[..thisLen] == src.Places(from, thisLen);
        var put;
        ghost var r;
        put, r := CopyBlock(dst, to, src, from, thisLen);
        StillThereAll(old(objs), mid, objs, dst.obj, src.obj);
        BlockRelayed(rs, r, dst, dpos, src, spos, len, copied, put);
        rs := rs + [r];
        if put < 0 {
          if copied == 0 {
            return put, rs;
          }
          break;
        }
        if put == 0 {
          break;
        }
        PlacesPart(dst, dstOff, len, copied, thisLen, put);
        PlacesPart(src, srcOff, len, copied, thisLen, put);
        CarryOn(old(objs), mid, objs, ds, ss, copied, put);
        copied := copied + put;
        if put < thisLen {
          break;
        }
        to := to + put;
        from := from + put;
        left := left - put;
      }
      res := copied;
    }

    method Memmove(dst: Buf, dstOff: nat, src: Buf, srcOff: nat, len: nat)
      requires dst.Backed(objs) && !dst.isFd && dstOff + len <= dst.size
      requires src.Backed(objs) && !src.isFd && srcOff + len <= src.size
      modifies this`objs
      ensures Grown(old(objs), objs) && (len == 0 ==> objs == old(objs))
      ensures Carried(old(objs), objs, dst.Places(dstOff, len), src.Places(srcOff, len))
    {
      var data := objs[src.obj][src.pos + srcOff..src.pos + srcOff + len];
      PutCarries(objs, dst.obj, dst.pos + dstOff, data, src.Places(srcOff, len));
      objs := Put(objs, dst.obj, dst.pos + dstOff, data);
    }

    /** memcpy may be called only on stretches that do not overlap. */
    method Memcpy(dst: Buf, dstOff: nat, src: Buf, srcOff: nat, len: nat)
      requires dst.Backed(objs) && !dst.isFd && dstOff + len <= dst.size
      requires src.Backed(objs) && !src.isFd && srcOff + len <= src.size
      requires dst.obj != src.obj || dst.pos + dstOff + len <= src.pos + srcOff ||
               src.pos + srcOff + len <= dst.pos + dstOff
      modifies this`objs
      ensures Grown(old(objs), objs) && (len == 0 ==> objs == old(objs))
      ensures Carried(old(objs), objs, dst.Places(dstOff, len), src.Places(srcOff, len))
    {
      Memmove(dst, dstOff, src, srcOff, len);
    }

    /** Memory to memory: nothing to do if source and destination are the same stretch. */
    method MemoryToMemory(dst: Buf, dstOff: nat, src: Buf, srcOff: nat, len: nat)
      requires dst.Backed(objs) && !dst.isFd && dstOff + len <= dst.size
      requires src.Backed(objs) && !src.isFd && srcOff + len <= src.size
      modifies this`objs
      ensures Grown(old(objs), objs) && (len == 0 ==> objs == old(objs))
      ensures Carried(old(objs), objs, dst.Places(dstOff, len), src.Places(srcOff, len))
    {
      var to, from := dst.pos + dstOff, src.pos + srcOff;
      if dst.obj != src.obj || to != from {
        if dst.obj != src.obj || to + len <= from || from + len <= to {
          Memcpy(dst, dstOff, src, srcOff, len);
        } else {
          Memmove(dst, dstOff, src, srcOff, len);
        }
      }
    }

    /** fuse_buf_read: a descriptor is read into memory. */
    method ReadToMemory(dst: Buf, dstOff: nat, src: Buf, srcOff: nat, len: nat)
      returns (res: int, ghost ts: seq<Transfer>)
      requires dst.Backed(objs) && !dst.isFd && dstOff + len <= dst.size && src.obj in objs
      modifies this`objs, this`cutShort, this`log
      ensures res <= len && Grown(old(objs), objs)
      ensures res <= 0 ==> objs == old(objs)
      ensures res >= 0 ==> Carried(old(objs), objs, dst.Places(dstOff, len)[..res], src.Places(srcOff, len)[..res])
      ensures (old(cutShort) ==> cutShort) && (res == len || cutShort)
      ensures log == old(log) + ts && Tells(ts, res)
      ensures Attempts(ts, false, src.obj, src.pos + srcOff, len, src.retry)
    {
      hide Attempts; hide Tells; hide At; hide Carried;
      ghost var ds, ss := dst.Places(dstOff, len), src.Places(srcOff, len);
      var data;
      res, data, ts := ReadIn(src, srcOff, len);
      if res > 0 {
        PlacesPart(dst, dstOff, len, 0, len, res);
        assert ds[0..][..len] == ds;
        PutCarries(objs, dst.obj, dst.pos + dstOff, data, ss[..res]);
        objs := Put(objs, dst.obj, dst.pos + dstOff, data);
      } else if res == 0 {
        CarriedNothing(objs, ds, ss);
      }
    }

    /** fuse_buf_copy_one. Two stretches of memory may overlap. */
    method CopyOne(dst: Buf, dstOff: nat, src: Buf, srcOff: nat, len: nat) returns (res: int, ghost rs: seq<Relay>)
      requires dst.Backed(objs) && dstOff + len <= dst.size
      requires src.Backed(objs) && srcOff + len <= src.size
      requires dst.isFd || src.isFd ==> Separate(dst.Places(dstOff, len), src.Places(srcOff, len))
      modifies this
      ensures res <= len && Grown(old(objs), objs)
      ensures res <= 0 ==> objs == old(objs)
      ensures res >= 0 ==> Carried(old(objs), objs, dst.Places(dstOff, len)[..res], src.Places(srcOff, len)[..res])
      ensures (old(cutShort) ==> cutShort) && (res == len || (cutShort && (dst.isFd || src.isFd)))
      ensures ones == old(ones) + [res]
      ensures log == old(log) + RelayLog(rs) && (!src.isFd && !dst.isFd ==> rs == [])
      ensures !src.isFd && dst.isFd ==>
                && |rs| == 1 && rs[0].ins == [] && Tells(rs[0].outs, res)
                && Attempts(rs[0].outs, true, dst.obj, dst.pos + dstOff, len, dst.retry)
      ensures src.isFd && !dst.isFd ==>
                && |rs| == 1 && rs[0].outs == [] && Tells(rs[0].ins, res)
                && Attempts(rs[0].ins, false, src.obj, src.pos + srcOff, len, src.retry)
      ensures src.isFd && dst.isFd ==>
                Relays(rs, dst, dst.pos + dstOff, src, src.pos + srcOff, len) && RelayTells(rs, res)
    {
      hide Separate; hide Put; hide At; hide Attempts; hide Relays; hide Tells; hide RelayTells; hide RelayLog;
      hide Carried;
      rs := [];
      assert RelayLog([]) == [] by {
        OneRelay(Relay([], []));
      }
      ghost var ds, ss := dst.Places(dstOff, len), src.Places(srcOff, len);
      assert ds[..len] == ds && ss[..len] == ss;
      if !src.isFd && !dst.isFd {
        MemoryToMemory(dst, dstOff, src, srcOff, len);
        res := len;
      } else if !src.isFd {
        var data := objs[src.obj][src.pos + srcOff..src.pos + srcOff + len];
        BytesAt(objs, src, srcOff, len);
        ghost var ts;
        res, ts := WriteOut(dst, dstOff, data, ss);
        rs := [Relay([], ts)];
        OneRelay(rs[0]);
      } else if !dst.isFd {
        ghost var ts;
        res, ts := ReadToMemory(dst, dstOff, src, srcOff, len);
        rs := [Relay(ts, [])];
        OneRelay(rs[0]);
      } else {
        res, rs := FdToFd(dst, dstOff, src, srcOff, len);
      }
      ones := ones + [res];
    }

    /** After the first j places of ss went to the first j of ds, the next ones follow. */
    method CopyNext(dst: Buf, dstOff: nat, src: Buf, srcOff: nat, len: nat,
                    ghost st: Store, ghost ds: seq<Loc>, ghost ss: seq<Loc>, ghost j: nat)
      returns (res: int)
      requires dst.Backed(objs) && dstOff + len <= dst.size
      requires src.Backed(objs) && srcOff + len <= src.size
      requires Separate(ds, ss) && j + len <= |ds| && j + len <= |ss|
      requires ds[j..][..len] == dst.Places(dstOff, len) && ss[j..][..len] == src.Places(srcOff, len)
      requires Grown(st, objs) && Carried(st, objs, ds[..j], ss[..j])
      modifies this
      ensures res <= len && Grown(st, objs) && Grown(old(objs), objs) && ones == old(ones) + [res]
      ensures res <= 0 ==> objs == old(objs)
      ensures res >= 0 ==> Carried(st, objs, ds[..j + res], ss[..j + res])
      ensures (old(cutShort) ==> cutShort) && (res == len || (cutShort && (dst.isFd || src.isFd)))
    {
      hide Separate; hide Put; hide Carried; hide At;
      SeparatePart(ds, ss, j, len);
      ghost var rs;
      res, rs := CopyOne(dst, dstOff, src, srcOff, len);
      if res >= 0 {
        assert ds[j..][..res] == ds[j..][..len][..res] && ss[j..][..res] == ss[j..][..len][..res];
        CarryOn(st, old(objs), objs, ds, ss, j, res);
      }
    }

    ghost predicate Ready(v: BufVec)
      reads this, v
    {
      v.Valid() && forall i :: v.idx <= i < |v.bufs| ==> v.bufs[i].Backed(objs)
    }

    /** What one run of fuse_buf_copy did to the objects: res bytes went from the front of ss to
        the front of ds, and if it failed none did. */
    twostate predicate Copied(res: int, ds: seq<Loc>, ss: seq<Loc>)
      reads this
    {
      && (res < 0 ==> objs == old(objs))
      && (res >= 0 ==> res <= |ds| && res <= |ss| && Carried(old(objs), objs, ds[..res], ss[..res]))
    }

    /** Between two rounds of fuse_buf_copy: the first `copied` places of ss went to those of ds. */
    ghost predicate Underway(dst: BufVec, src: BufVec, st: Store, ds: seq<Loc>, ss: seq<Loc>, copied: nat)
      reads this, dst, src
    {
      && Ready(dst) && Ready(src) && Grown(st, objs)
      && copied <= |ds| && copied <= |ss| && Carried(st, objs, ds[..copied], ss[..copied])
      && src.Remaining() == ss[copied..]
    }

    /** One round of fuse_buf_copy; the cursor of the destination moves only if there is more
        source.
        @param more  whether there is another round
     */
    method Round(dst: BufVec, src: BufVec, ghost st: Store, ghost ds: seq<Loc>, ghost ss: seq<Loc>, ghost copied: nat)
      returns (r: int, more: bool)
      requires dst != src && Separate(ds, ss)
      requires Underway(dst, src, st, ds, ss, copied) && dst.Remaining() == ds[copied..]
      requires src.idx < |src.bufs| && dst.idx < |dst.bufs|
      modifies this, dst, src
      ensures r <= 0 ==> objs == old(objs)
      ensures r < 0 ==> unchanged(dst, src)
      ensures r >= 0 ==>
                && Underway(dst, src, st, ds, ss, copied + r)
                && dst.Remaining() == ds[if src.idx < |src.bufs| then copied + r else copied..]
      ensures r >= 0 && src.idx < |src.bufs| && src.bufs[|src.bufs| - 1].size > 0 ==> copied + r < |ss|
      ensures old(src.idx) <= src.idx && old(dst.idx) <= dst.idx && ones == old(ones) + [r]
      ensures more ==> r >= 0 && src.idx < |src.bufs| && dst.idx < |dst.bufs| &&
                       old(src.idx) + old(dst.idx) < src.idx + dst.idx
      ensures more ==> src.off == (if src.idx == old(src.idx) then old(src.off) + r else 0)
      ensures more ==> dst.off == (if dst.idx == old(dst.idx) then old(dst.off) + r else 0)
      ensures r >= 0 && src.idx == |src.bufs| ==>
                old(src.off) + r == src.bufs[old(src.idx)].size && old(src.idx) + 1 == |src.bufs|
      ensures old(dst.off) + r <= dst.bufs[old(dst.idx)].size
      ensures old(cutShort) ==> cutShort
      ensures !cutShort || (!src.bufs[old(src.idx)].isFd && !dst.bufs[old(dst.idx)].isFd) ==>
                r >= 0 && (!more ==> src.idx == |src.bufs| || dst.idx == |dst.bufs|)
    {
      hide Separate; hide Carried; hide Put; hide At; hide Locs; hide Stretch;
      var s, d := src.bufs[src.idx], dst.bufs[dst.idx];
      var len := Min(s.size - src.off, d.size - dst.off);
      assert s.Backed(objs) && d.Backed(objs);
      FrontPlaces(src.bufs, src.idx, src.off, len);
      FrontPlaces(dst.bufs, dst.idx, dst.off, len);
      r := CopyNext(d, dst.off, s, src.off, len, st, ds, ss, copied);
      if r < 0 {
        return r, false;
      }
      more := src.Advance(r);
      if more {
        more := dst.Advance(r);
      }
      more := more && r == len;
    }

    /** The loop of fuse_buf_copy.
        @param err   the error number if the first transfer failed, or 0
        @param last  by how much the destination cursor lags behind
     */
    method Rounds(dst: BufVec, src: BufVec, ghost ds: seq<Loc>, ghost ss: seq<Loc>)
      returns (copied: nat, err: int, ghost last: nat, ghost os: seq<int>)
      requires dst != src && Separate(ds, ss)
      requires Underway(dst, src, objs, ds, ss, 0) && ds == dst.Remaining() && ss == src.Remaining()
      modifies this, dst, src
      ensures Underway(dst, src, old(objs), ds, ss, copied)
      ensures last <= copied && dst.Remaining() == ds[copied - last..]
      ensures last == Lag(src.bufs, old(src.idx), old(src.off), dst.bufs, old(dst.idx), old(dst.off), copied)
      ensures err <= 0 && (err < 0 ==> copied == 0 && objs == old(objs))
      ensures ones == old(ones) + os && Told(os, if err < 0 then err else copied)
      ensures old(cutShort) ==> cutShort
      ensures !cutShort || old(InMemory(src) && InMemory(dst)) ==> err == 0 && (copied == |ss| || copied == |ds|)
    {
      hide Separate; hide Carried; hide Put; hide At; hide Locs; hide Stretch; hide Lag; hide Grown; hide Buf.Backed;
      hide Told; hide Total; hide AllMoved;
      copied, err, last, os := 0, 0, 0, [];
      NoneYet();
      while src.idx < |src.bufs| && dst.idx < |dst.bufs|
        invariant Underway(dst, src, old(objs), ds, ss, copied) && dst.Remaining() == ds[copied..]
        invariant AtChunk(dst, src, old(dst.idx), old(dst.off), old(src.idx), old(src.off))
        invariant copied == 0 || (src.idx < |src.bufs| && dst.idx < |dst.bufs|)
        invariant (copied == 0 ==> objs == old(objs)) && (old(cutShort) ==> cutShort)
        invariant ones == old(ones) + os && AllMoved(os) && Total(os) == copied && Told(os, copied)
        invariant ss != [] && src.bufs != [] && src.bufs[|src.bufs| - 1].size > 0 ==> copied < |ss|
        decreases |src.bufs| - src.idx + |dst.bufs| - dst.idx
      {
        ghost var si, so, di, do := src.idx, src.off, dst.idx, dst.off;
        var r, more := Round(dst, src, old(objs), ds, ss, copied);
        OneMore(os, r);
        os := os + [r];
        if r < 0 {
          err := if copied == 0 then r else 0;
          break;
        }
        if !more && src.idx == |src.bufs| && r > 0 {
          LastRound(src.bufs, old(src.idx), old(src.off), si, so,
                    dst.bufs, old(dst.idx), old(dst.off), di, do, copied, r);
          copied, last := copied + r, r;
          LocsEnd(src.bufs, src.idx, src.off);
          return;
        }
        copied := copied + r;
        if !more {
          break;
        }
      }
      LocsEnd(src.bufs, src.idx, src.off);
      LocsEnd(dst.bufs, dst.idx, dst.off);
      NoLag(src.bufs, old(src.idx), old(src.off), dst.bufs, old(dst.idx), old(dst.off), copied);
    }

    /** The body of fuse_buf_copy for two vectors. */
    method CopyLoop(dst: BufVec, src: BufVec) returns (res: int, ghost last: nat, ghost os: seq<int>)
      requires dst != src && Ready(dst) && Ready(src) && Separate(dst.Remaining(), src.Remaining())
      modifies this, dst, src
      ensures Copied(res, old(dst.Remaining()), old(src.Remaining()))
      ensures src.Valid() && src.Remaining() == old(src.Remaining())[if res < 0 then 0 else res..]
      ensures last == Lag(src.bufs, old(src.idx), old(src.off), dst.bufs, old(dst.idx), old(dst.off), res)
      ensures ones == old(ones) + os && Told(os, res)
      ensures last <= (if res < 0 then 0 else res)
      ensures dst.Valid() && dst.Remaining() == old(dst.Remaining())[if res < 0 then 0 else res - last..]
      ensures (old(cutShort) ==> cutShort) && (!cutShort || old(InMemory(src) && InMemory(dst)) ==>
                res == Min(|old(src.Remaining())|, |old(dst.Remaining())|))
    {
      hide Separate; hide Carried; hide Put; hide At; hide Locs; hide Stretch; hide Told; hide Buf.Backed;
      ghost var ds, ss := dst.Remaining(), src.Remaining();
      CarriedNothing(objs, ds, ss);
      var copied, err;
      copied, err, last, os := Rounds(dst, src, ds, ss);
      res := if err < 0 then err else copied;
    }

    /** Between two rounds one of the cursors has just entered its buffer. */
    ghost predicate AtChunk(dst: BufVec, src: BufVec, didx0: nat, doff0: nat, sidx0: nat, soff0: nat)
      reads dst, src
    {
      && sidx0 <= src.idx && didx0 <= dst.idx
      && (src.idx < |src.bufs| ==> Entry(sidx0, soff0, src.idx) <= src.off)
      && (dst.idx < |dst.bufs| ==> Entry(didx0, doff0, dst.idx) <= dst.off)
      && (src.off == Entry(sidx0, soff0, src.idx) || dst.off == Entry(didx0, doff0, dst.idx))
    }

    /** fuse_buf_copy: a vector "copied" onto itself is already there, whatever its cursor. The
        destination's cursor lags exactly when the source is used up by the copy and does not end in
        an empty buffer: a caller can tell beforehand from the two vectors. */
    method FuseBufCopy(dst: BufVec, src: BufVec) returns (res: int, ghost last: nat, ghost os: seq<int>)
      requires dst != src ==> Ready(dst) && Ready(src) && Separate(dst.Remaining(), src.Remaining())
      modifies this, dst, src
      ensures dst == src ==> unchanged(this, dst) && res == CountedSize(dst.bufs) % (SIZE_MAX + 1)
      ensures dst != src ==>
                && Copied(res, old(dst.Remaining()), old(src.Remaining()))
                && src.Valid() && src.Remaining() == old(src.Remaining())[if res < 0 then 0 else res..]
                && last == Lag(src.bufs, old(src.idx), old(src.off), dst.bufs, old(dst.idx), old(dst.off), res)
                && ones == old(ones) + os && Told(os, res)
                && last <= (if res < 0 then 0 else res)
                && dst.Valid() && dst.Remaining() == old(dst.Remaining())[if res < 0 then 0 else res - last..]
                && (old(cutShort) ==> cutShort)
                && (!cutShort || old(InMemory(src) && InMemory(dst)) ==>
                      res == Min(|old(src.Remaining())|, |old(dst.Remaining())|))
      ensures dst != src && (!cutShort || old(InMemory(src) && InMemory(dst))) ==>
                (last > 0 <==>
                  && src.bufs != [] && src.bufs[|src.bufs| - 1].size > 0
                  && 0 < |old(src.Remaining())| <= |old(dst.Remaining())|)
    {
      if dst == src {
        res := dst.Size();
        last, os := 0, [];
      } else {
        ghost var si, so, di, do := src.idx, src.off, dst.idx, dst.off;
        res, last, os := CopyLoop(dst, src);
        if res > 0 {
          IntoIsPositive(src.bufs, si, so, res);
          IntoIsPositive(dst.bufs, di, do, res);
        }
      }
    }

    ghost predicate InMemory(v: BufVec)
      reads v
    {
      forall i :: v.idx <= i < |v.bufs| ==> !v.bufs[i].isFd
    }
  }

  /** Ten bytes of memory go into a buffer of twenty: all of them arrive, and the destination's cursor
      still stands at its beginning. */
  method TenIntoTwenty() returns (res: int, dstIdx: nat, dstOff: nat)
    ensures res == 10 && dstIdx == 0 && dstOff == 0
  {
    var world := new World(map[0 := seq(10, _ => 7), 1 := seq(20, _ => 0)]);
    var src := new BufVec([Buf(10, false, false, 0, 0)]);
    var dst := new BufVec([Buf(20, false, false, 1, 0)]);
    OneBuffer(src.bufs, 0);
    OneBuffer(dst.bufs, 0);
    ghost var last, os;
    res, last, os := world.FuseBufCopy(dst, src);
    OneBuffer(dst.bufs, dst.off);
    dstIdx, dstOff := dst.idx, dst.off;
  }

  lemma OneBuffer(bufs: seq<Buf>, off: nat)
    requires |bufs| == 1
    ensures off <= bufs[0].size ==> Locs(bufs, 0, off) == bufs[0].Places(off, bufs[0].size - off)
    ensures Locs(bufs, 1, off) == []
  {
    LocsEnd(bufs, 1, off);
  }

  /** A part of a part of the places. */
  lemma PlacesPart(b: Buf, off: nat, n: nat, j: nat, m: nat, k: nat)
    requires j + m <= n && k <= m
    ensures b.Places(off + j, m)[..k] == b.Places(off, n)[j..][..k] == b.Places(off + j, k)
  {
  }

  lemma BytesAt(st: Store, b: Buf, off: nat, n: nat)
    requires b.Backed(st) && !b.isFd && off + n <= b.size
    ensures forall i :: 0 <= i < n ==>
              st[b.obj][b.pos + off..b.pos + off + n][i] == At(st, b.Places(off, n)[i])
  {
  }

  lemma SeparatePart(ds: seq<Loc>, ss: seq<Loc>, j: nat, k: nat)
    requires j + k <= |ds| && j + k <= |ss| && Separate(ds, ss)
    ensures Separate(ds[j..][..k], ss[j..][..k])
  {
  }

  /** The first places of what remains are in the current buffer. */
  lemma FrontPlaces(bufs: seq<Buf>, idx: nat, off: nat, n: nat)
    requires idx < |bufs| && off + n <= bufs[idx].size
    ensures |Locs(bufs, idx, off)| >= n && Locs(bufs, idx, off)[..n] == bufs[idx].Places(off, n)
  {
  }
}
