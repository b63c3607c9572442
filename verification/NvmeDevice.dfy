/** Reads and writes on the NVMe device: how a write is split into tasks, what the device
    holds once they have been executed in any order, and the unaligned read. */
module NvmeDevice {
  import opened Prelude
  import opened NvmeMemory
  import opened Multiples

  const SPLIT: nat := 131072
  const PAGE: nat := 4096

  /** Sector size, block size and usable size; every size is a power of two no larger
      than the split size. */
  datatype Geometry = Geometry(sector: nat, block: nat, size: nat)

  ghost predicate WellFormed(g: Geometry) {
    && 0 < g.sector && g.block == (if PAGE < g.sector then g.sector else PAGE)
    && g.block % g.sector == 0 && SPLIT % g.block == 0 && SPLIT % g.sector == 0
    && g.size % g.block == 0 && g.size < SIZE_T
  }

  /** open() rounds the raw size down to whole blocks. */
  function RoundDown(size: nat, block: nat): (r: nat)
    requires block > 0
    ensures r <= size < r + block && r % block == 0
  {
    MultipleBelow(size, block);
    size - size % block
  }

  ghost predicate ValidIo(g: Geometry, off: nat, len: nat)
    requires g.block > 0
  {
    off % g.block == 0 && len % g.block == 0 && len > 0 && off < g.size && off + len <= g.size
  }

  datatype Write = Write(off: nat, data: seq<byte>)

  // ---------- splitting ----------

  function Split(off: nat, bl: seq<byte>): seq<Write>
    decreases |bl|
  {
    if |bl| == 0 then []
    else
      var k := Min(|bl|, SPLIT);
      [Write(off, bl[..k])] + Split(off + k, bl[k..])
  }

  /** The chain of tasks an I/O context has pending. */
  class IOContext {
    var tasks: seq<Write>
    var numPending: nat

    constructor ()
      ensures tasks == [] && numPending == 0
    {
      tasks, numPending := [], 0;
    }

    /** write_split, the whole of aio_write. */
    method WriteSplit(off: nat, bl: seq<byte>)
      modifies this
      ensures tasks == old(tasks) + Split(off, bl)
      ensures numPending == old(numPending) + |Split(off, bl)|
    {
      var remain, begin, left := |bl|, 0, bl;
      while remain > 0
        invariant remain == |left|
        invariant tasks + Split(off + begin, left) == old(tasks) + Split(off, bl)
        invariant numPending + |Split(off + begin, left)| == old(numPending) + |Split(off, bl)|
      {
        var writeSize := Min(remain, SPLIT);
        var t := Write(off + begin, left[..writeSize]);
        left := left[writeSize..];
        remain := remain - writeSize;
        tasks := tasks + [t];
        numPending := numPending + 1;
        begin := begin + writeSize;
      }
    }
  }

  /** The i-th task of a split write covers the i-th 128 KiB of the buffer. */
  lemma {:induction false} SplitShape(off: nat, bl: seq<byte>, i: nat)
    requires i < |Split(off, bl)|
    ensures i * SPLIT < |bl|
    ensures Split(off, bl)[i] == Write(off + i * SPLIT, bl[i * SPLIT..Min(|bl|, (i + 1) * SPLIT)])
    decreases i
  {
    var k := Min(|bl|, SPLIT);
    assert Split(off, bl) == [Write(off, bl[..k])] + Split(off + k, bl[k..]);
    if i == 0 {
      assert bl[0..k] == bl[..k];
    } else {
      var rest := bl[k..];
      SplitShape(off + k, rest, i - 1);
      assert k == SPLIT && (i - 1) * SPLIT + SPLIT == i * SPLIT && i * SPLIT + SPLIT == (i + 1) * SPLIT;
      var from, to := (i - 1) * SPLIT, Min(|rest|, i * SPLIT);
      TailSlice(bl, k, from, to);
    }
  }

  lemma TailSlice(bl: seq<byte>, k: nat, from: nat, to: nat)
    requires k <= |bl| && from <= to <= |bl| - k
    ensures bl[k..][from..to] == bl[k + from..k + to]
  {
  }

  lemma {:induction false} SplitCount(off: nat, bl: seq<byte>)
    ensures |Split(off, bl)| == (|bl| + 131071) / 131072
    decreases |bl|
  {
    if |bl| > 0 {
      var k := Min(|bl|, SPLIT);
      SplitCount(off + k, bl[k..]);
    }
  }

  /** Every task of a block-aligned write is sector-exact, not empty, at most 128 KiB and at
      most sixteen buffers, and starts where the one before it ends. */
  lemma SplitTasksAreExact(g: Geometry, off: nat, bl: seq<byte>, i: nat)
    requires WellFormed(g) && ValidIo(g, off, |bl|) && i < |Split(off, bl)|
    ensures var w := Split(off, bl)[i];
            && w.off % g.sector == 0 && |w.data| % g.sector == 0
            && 0 < |w.data| <= 131072 && SegCount(|w.data|) <= 16
            && off <= w.off && w.off + |w.data| <= off + |bl| <= g.size
            && (i + 1 < |Split(off, bl)| ==> Split(off, bl)[i + 1].off == w.off + |w.data|)
  {
    SplitShape(off, bl, i);
    SplitCount(off, bl);
    MultipleOfMultiple(off, g.sector, g.block);
    MultipleOfMultiple(|bl|, g.sector, g.block);
    ScaledMultiple(SPLIT, i, g.sector);
    SumOfMultiples(off, i * SPLIT, g.sector);
    if i + 1 < |Split(off, bl)| {
      SplitShape(off, bl, i + 1);
    } else {
      DifferenceOfMultiples(|bl|, i * SPLIT, g.sector);
    }
  }

  // ---------- executing ----------

  function Overlay(dev: seq<byte>, off: nat, data: seq<byte>): seq<byte>
    requires off + |data| <= |dev|
  {
    dev[..off] + data + dev[off + |data|..]
  }

  ghost predicate Exact(g: Geometry, dev: seq<byte>, w: Write) {
    0 < g.sector && w.off % g.sector == 0 && |w.data| % g.sector == 0 && w.off + |w.data| <= |dev|
  }

  /** A write command names whole sectors: lba_off and lba_count are quotients. */
  function Execute(g: Geometry, dev: seq<byte>, w: Write): (d: seq<byte>)
    requires Exact(g, dev, w)
    ensures |d| == |dev|
    ensures d == Overlay(dev, w.off, w.data)
  {
    var lbaOff, lbaCount := w.off / g.sector, |w.data| / g.sector;
    QuotientTimesDivisor(w.off, g.sector);
    QuotientTimesDivisor(|w.data|, g.sector);
    Overlay(dev, lbaOff * g.sector, w.data[..lbaCount * g.sector])
  }

  ghost predicate AllExact(g: Geometry, dev: seq<byte>, ws: seq<Write>) {
    forall i :: 0 <= i < |ws| ==> Exact(g, dev, ws[i])
  }

  ghost predicate InRange(order: seq<nat>, n: nat) {
    forall k :: 0 <= k < |order| ==> order[k] < n
  }

  /** The device after the tasks listed in `order` have been executed in that order. */
  function ExecuteAll(g: Geometry, dev: seq<byte>, ws: seq<Write>, order: seq<nat>): (d: seq<byte>)
    requires AllExact(g, dev, ws) && InRange(order, |ws|)
    ensures |d| == |dev|
  {
    if order == [] then dev
    else Execute(g, ExecuteAll(g, dev, ws, order[..|order| - 1]), ws[order[|order| - 1]])
  }

  ghost predicate Covers(w: Write, j: nat) {
    w.off <= j < w.off + |w.data|
  }

  ghost predicate Hit(ws: seq<Write>, order: seq<nat>, j: nat) {
    exists k :: 0 <= k < |order| && order[k] < |ws| && Covers(ws[order[k]], j)
  }

  /** If all tasks agree with `want` on the bytes they cover, a byte of the device ends up
      as wanted once any task covering it has run, and is untouched before that. */
  lemma {:induction false} ExecuteAllAt(g: Geometry, dev: seq<byte>, ws: seq<Write>, order: seq<nat>,
                                        want: seq<byte>, j: nat)
    requires AllExact(g, dev, ws) && InRange(order, |ws|)
    requires |want| == |dev| && j < |dev|
    requires forall i :: 0 <= i < |ws| && Covers(ws[i], j) ==> ws[i].data[j - ws[i].off] == want[j]
    ensures ExecuteAll(g, dev, ws, order)[j] == if Hit(ws, order, j) then want[j] else dev[j]
  {
    if order != [] {
      var front, last := order[..|order| - 1], order[|order| - 1];
      ExecuteAllAt(g, dev, ws, front, want, j);
      assert Hit(ws, front, j) ==> Hit(ws, order, j) by {
        if k :| 0 <= k < |front| && front[k] < |ws| && Covers(ws[front[k]], j) {
          assert order[k] == front[k];
        }
      }
      if Hit(ws, order, j) && !Covers(ws[last], j) {
        var k :| 0 <= k < |order| && order[k] < |ws| && Covers(ws[order[k]], j);
        assert front[k] == order[k];
      }
      if Covers(ws[last], j) {
        assert order[|order| - 1] == last;
      }
    }
  }

  /** A block-aligned write, split into tasks that the device executes in any order
      whatever (even some more than once), replaces exactly [off, off + len) by the buffer. */
  lemma WriteInAnyOrder(g: Geometry, dev: seq<byte>, off: nat, bl: seq<byte>, order: seq<nat>)
    requires WellFormed(g) && ValidIo(g, off, |bl|) && g.size <= |dev|
    requires InRange(order, |Split(off, bl)|)
    requires forall i :: 0 <= i < |Split(off, bl)| ==> i in order
    ensures AllExact(g, dev, Split(off, bl))
    ensures ExecuteAll(g, dev, Split(off, bl), order) == Overlay(dev, off, bl)
  {
    var ws := Split(off, bl);
    SplitIsExact(g, dev, off, bl);
    forall j | 0 <= j < |dev|
      ensures ExecuteAll(g, dev, ws, order)[j] == Overlay(dev, off, bl)[j]
    {
      ByteInAnyOrder(g, dev, off, bl, order, j);
    }
  }

  lemma SplitIsExact(g: Geometry, dev: seq<byte>, off: nat, bl: seq<byte>)
    requires WellFormed(g) && ValidIo(g, off, |bl|) && g.size <= |dev|
    ensures AllExact(g, dev, Split(off, bl))
  {
    forall i | 0 <= i < |Split(off, bl)|
      ensures Exact(g, dev, Split(off, bl)[i])
    {
      SplitTasksAreExact(g, off, bl, i);
    }
  }

  /** A task of the split agrees with the overlaid buffer on every byte it covers. */
  lemma SplitAgrees(dev: seq<byte>, off: nat, bl: seq<byte>, i: nat, j: nat)
    requires off + |bl| <= |dev| && i < |Split(off, bl)| && Covers(Split(off, bl)[i], j)
    ensures j < |dev| && Split(off, bl)[i].data[j - Split(off, bl)[i].off] == Overlay(dev, off, bl)[j]
  {
    SplitShape(off, bl, i);
  }

  lemma ByteInAnyOrder(g: Geometry, dev: seq<byte>, off: nat, bl: seq<byte>, order: seq<nat>, j: nat)
    requires off + |bl| <= |dev| && AllExact(g, dev, Split(off, bl)) && j < |dev|
    requires InRange(order, |Split(off, bl)|)
    requires forall i :: 0 <= i < |Split(off, bl)| ==> i in order
    ensures ExecuteAll(g, dev, Split(off, bl), order)[j] == Overlay(dev, off, bl)[j]
  {
    var ws := Split(off, bl);
    var want := Overlay(dev, off, bl);
    forall i | 0 <= i < |ws| && Covers(ws[i], j)
      ensures ws[i].data[j - ws[i].off] == want[j]
    {
      SplitAgrees(dev, off, bl, i, j);
    }
    ExecuteAllAt(g, dev, ws, order, want, j);
    if off <= j < off + |bl| {
      TaskCovering(off, bl, j);
      var i := (j - off) / SPLIT;
      assert i in order;
      var k :| 0 <= k < |order| && order[k] == i;
      assert Covers(ws[order[k]], j);
    }
  }

  lemma TaskCovering(off: nat, bl: seq<byte>, j: nat)
    requires off <= j < off + |bl|
    ensures (j - off) / SPLIT < |Split(off, bl)| && Covers(Split(off, bl)[(j - off) / SPLIT], j)
  {
    SplitCount(off, bl);
    SplitShape(off, bl, (j - off) / SPLIT);
  }

  // ---------- reading ----------

  function AlignDown(x: nat, block: nat): nat
    requires block > 0
  {
    x - x % block
  }

  function AlignUp(x: nat, block: nat): nat
    requires block > 0
  {
    AlignDown(x + (block - 1), block)
  }

  /** The least aligned window around the request. */
  lemma WindowIsTight(block: nat, off: nat, len: nat)
    requires block > 0
    ensures var from, to := AlignDown(off, block), AlignUp(off + len, block);
            && 0 <= from <= off && off - from < block && off + len <= to && to - (off + len) < block
            && from % block == 0 && to % block == 0
  {
    MultipleBelow(off, block);
    MultipleBelow(off + len + (block - 1), block);
  }

  /** The aligned window covers the request, no more than it must, stays on the device and is
      sector-exact. */
  lemma WindowCovers(g: Geometry, off: nat, len: nat)
    requires WellFormed(g) && len > 0 && off < g.size && off + len <= g.size
    ensures var from, to := AlignDown(off, g.block), AlignUp(off + len, g.block);
            && from <= off && off + len <= to <= g.size && off - from < g.block && to - (off + len) < g.block
            && from < to && from % g.sector == 0 && (to - from) % g.sector == 0
  {
    hide AlignDown; hide AlignUp;
    var from, to := AlignDown(off, g.block), AlignUp(off + len, g.block);
    WindowIsTight(g.block, off, len);
    if to > g.size {
      MultiplesAreApart(g.size, to, g.block);
    }
    MultipleOfMultiple(from, g.sector, g.block);
    MultipleOfMultiple(to, g.sector, g.block);
    DifferenceOfMultiples(to, from, g.sector);
  }

  /** A read command fills the task's buffers with whole sectors of the device. */
  method ReadInto(sector: nat, dev: seq<byte>, off: nat, len: nat, stale: Segments) returns (t: Task)
    requires 0 < sector && off % sector == 0 && len % sector == 0 && off + len <= |dev|
    requires |stale| == SegCount(len) && NvmeMemory.Sized(stale)
    ensures t.Valid() && fresh(t) && t.len == len
    ensures |Flatten(t.Segs())| >= len && Flatten(t.Segs())[..len] == dev[off..off + len]
  {
    var lbaOff, lbaCount := off / sector, len / sector;
    QuotientTimesDivisor(off, sector);
    QuotientTimesDivisor(len, sector);
    var data := dev[lbaOff * sector..lbaOff * sector + lbaCount * sector];
    var segs := Gather(stale, data);
    GatherHoldsPayload(stale, data);
    t := new Task(len, segs);
  }

  /** read_random: an unaligned read is served from the aligned window around it. The scatter copy
      starts inside the first buffer, which it always does if blocks have at most 8 KiB; otherwise it
      would read outside it, and nothing is returned. */
  method ReadRandom(g: Geometry, dev: seq<byte>, off: nat, len: nat, stale: Segments) returns (buf: Option<seq<byte>>)
    requires WellFormed(g) && g.size <= |dev|
    requires len > 0 && off < g.size && off + len <= g.size
    requires |stale| == SegCount(AlignUp(off + len, g.block) - AlignDown(off, g.block)) && NvmeMemory.Sized(stale)
    ensures buf == if off % g.block <= BUF then Some(dev[off..off + len]) else None
  {
    WindowCovers(g, off, len);
    var alignedOff := AlignDown(off, g.block);
    var alignedLen := AlignUp(off + len, g.block) - alignedOff;
    buf := ReadWindow(g.sector, dev, alignedOff, alignedLen, off, len, stale);
  }

  lemma SliceOfSlice(all: seq<byte>, dev: seq<byte>, from: nat, n: nat, skip: nat, len: nat)
    requires n <= |all| && from + n <= |dev| && all[..n] == dev[from..from + n] && skip + len <= n
    ensures all[skip..skip + len] == dev[from + skip..from + skip + len]
  {
    var a, b := all[..n], dev[from..from + n];
    assert a[skip..skip + len] == all[skip..skip + len];
    var c, d := b[skip..skip + len], dev[from + skip..from + skip + len];
    forall i | 0 <= i < len
      ensures c[i] == d[i]
    {
      assert c[i] == b[skip + i] == dev[from + (skip + i)];
      assert d[i] == dev[from + skip + i];
    }
  }

  /** The read task over the aligned window with its fill callback. */
  method ReadWindow(sector: nat, dev: seq<byte>, alignedOff: nat, alignedLen: nat, off: nat, len: nat,
                    stale: Segments) returns (buf: Option<seq<byte>>)
    requires 0 < sector && alignedOff % sector == 0 && alignedLen % sector == 0 && alignedLen < SIZE_T
    requires alignedOff <= off && 0 < len && off + len <= alignedOff + alignedLen <= |dev|
    requires |stale| == SegCount(alignedLen) && NvmeMemory.Sized(stale)
    ensures buf == if off - alignedOff <= BUF then Some(dev[off..off + len]) else None
  {
    var t := ReadInto(sector, dev, alignedOff, alignedLen, stale);
    buf := t.CopyToBuf(off - alignedOff, len);
    SliceOfSlice(Flatten(t.Segs()), dev, alignedOff, alignedLen, off - alignedOff, len);
  }
}
