/** The memory of an NVMe task: a byte range spread over pooled 8 KiB buffers, filled by a
    gather copy, exposed to the driver through a reset/next scatter-gather iterator, and
    read back by a scatter copy. */
module NvmeMemory {
  import opened Prelude

  const BUF: nat := 8192
  const INLINE_SEGS: nat := 32
  const SIZE_T: nat := 0x1_0000_0000_0000_0000

  type Segments = seq<seq<byte>>

  ghost predicate Sized(segs: Segments) {
    forall i :: 0 <= i < |segs| ==> |segs[i]| == BUF
  }

  function Flatten(segs: Segments): seq<byte> {
    if segs == [] then [] else segs[0] + Flatten(segs[1..])
  }

  lemma {:induction false} FlattenLength(segs: Segments)
    requires Sized(segs)
    ensures |Flatten(segs)| == BUF * |segs|
  {
    if segs != [] { FlattenLength(segs[1..]); }
  }

  lemma {:induction false} FlattenFrom(segs: Segments, i: nat)
    requires Sized(segs) && i <= |segs|
    ensures |Flatten(segs)| == BUF * |segs|
    ensures Flatten(segs)[BUF * i..] == Flatten(segs[i..])
  {
    FlattenLength(segs);
    if i > 0 {
      FlattenLength(segs[1..]);
      FlattenFrom(segs[1..], i - 1);
      assert segs[1..][i - 1..] == segs[i..];
      assert Flatten(segs)[BUF..] == Flatten(segs[1..]);
      assert Flatten(segs)[BUF..][BUF * (i - 1)..] == Flatten(segs)[BUF * i..];
    }
  }

  /** How many buffers a task of len bytes needs. */
  function SegCount(len: nat): (n: nat)
    ensures n * BUF >= len && (n > 0 ==> (n - 1) * BUF < len)
  {
    len / BUF + (if len % BUF != 0 then 1 else 0)
  }

  // ---------- gather ----------

  /** What the buffers hold once bl has been copied into them: the rest of the last buffer
      keeps its stale contents. */
  function Gather(was: Segments, bl: seq<byte>): (segs: Segments)
    requires |was| == SegCount(|bl|) && Sized(was)
    ensures |segs| == |was| && Sized(segs)
    decreases |was|
  {
    if |was| == 0 then []
    else if |bl| <= BUF then [bl + was[0][|bl|..]]
    else [bl[..BUF]] + Gather(was[1..], bl[BUF..])
  }

  lemma {:induction false} GatherHoldsPayload(was: Segments, bl: seq<byte>)
    requires |was| == SegCount(|bl|) && Sized(was)
    ensures |Flatten(Gather(was, bl))| == BUF * |was|
    ensures Flatten(Gather(was, bl))[..|bl|] == bl
    decreases |was|
  {
    FlattenLength(Gather(was, bl));
    if |was| > 0 && |bl| > BUF {
      GatherHoldsPayload(was[1..], bl[BUF..]);
      var rest := Gather(was[1..], bl[BUF..]);
      assert Gather(was, bl)[1..] == rest;
      assert Flatten(Gather(was, bl)) == bl[..BUF] + Flatten(rest);
    } else if |was| > 0 {
      assert Gather(was, bl)[1..] == [];
    }
  }

  // ---------- the scatter-gather iterator ----------

  datatype Cursor = Cursor(idx: nat, left: nat)

  /** Where data_buf_reset_sgl leaves the cursor. */
  function ResetAt(nseg: nat, len: nat, o: nat): Cursor
    requires o <= len && nseg == SegCount(len)
  {
    var i := o / BUF;
    if i < nseg then Cursor(i, Min((i + 1) * BUF, len) - o) else Cursor(i, 0)
  }

  /** The bytes of segment idx that belong to the task. */
  function SegSize(nseg: nat, len: nat, idx: nat): nat {
    if idx + 1 == nseg && len % BUF != 0 then len % BUF else BUF
  }

  lemma ResetIsInRange(nseg: nat, len: nat, o: nat)
    requires o <= len && nseg == SegCount(len)
    ensures var c := ResetAt(nseg, len, o); c.idx < nseg ==> c.left <= SegSize(nseg, len, c.idx)
  {
  }

  /** Everything data_buf_next_sge hands out from the cursor on. */
  function Emit(segs: Segments, len: nat, c: Cursor): seq<byte>
    requires Sized(segs) && |segs| == SegCount(len)
    requires c.idx < |segs| ==> c.left <= SegSize(|segs|, len, c.idx)
    decreases |segs| - c.idx
  {
    if c.idx >= |segs| then []
    else
      var size := SegSize(|segs|, len, c.idx);
      var piece := if c.left != 0 then segs[c.idx][size - c.left..size] else segs[c.idx][..size];
      piece + Emit(segs, len, Cursor(c.idx + 1, 0))
  }

  lemma EmitNothing(segs: Segments, len: nat, idx: nat, left: nat)
    requires Sized(segs) && |segs| == SegCount(len) && idx >= |segs|
    ensures Emit(segs, len, Cursor(idx, left)) == []
  {
  }

  /** Segment i, and the flattened bytes behind it. */
  lemma FlattenSplit(segs: Segments, i: nat)
    requires Sized(segs) && i < |segs|
    ensures |Flatten(segs)| == BUF * |segs|
    ensures Flatten(segs)[BUF * i..] == segs[i] + Flatten(segs)[BUF * (i + 1)..]
  {
    FlattenFrom(segs, i);
    FlattenFrom(segs, i + 1);
    assert segs[i..] == [segs[i]] + segs[i + 1..];
  }

  lemma {:induction false} EmitFromSegment(segs: Segments, len: nat, i: nat)
    requires Sized(segs) && |segs| == SegCount(len) && i <= |segs|
    ensures |Flatten(segs)| == BUF * |segs| && (i < |segs| ==> BUF * i < len <= |Flatten(segs)|)
    ensures Emit(segs, len, Cursor(i, 0)) == if i < |segs| then Flatten(segs)[BUF * i..len] else []
    decreases |segs| - i
  {
    hide Flatten;
    FlattenFrom(segs, i);
    if i < |segs| {
      EmitFromSegment(segs, len, i + 1);
      FlattenSplit(segs, i);
      var size := SegSize(|segs|, len, i);
      assert segs[i][..size] == Flatten(segs)[BUF * i..BUF * i + size];
      if i + 1 < |segs| {
        assert Flatten(segs)[BUF * i..len] ==
               Flatten(segs)[BUF * i..BUF * (i + 1)] + Flatten(segs)[BUF * (i + 1)..len];
      } else {
        assert BUF * i + size == len;
      }
    }
  }

  /** The quotient and the cursor of a reset, without division. */
  lemma ResetFacts(nseg: nat, len: nat, o: nat)
    requires nseg == SegCount(len) && o < len
    ensures var i := o / BUF; var c := ResetAt(nseg, len, o); var end := BUF * i + SegSize(nseg, len, i);
            && i < nseg && BUF * i <= o < BUF * (i + 1) && o < end <= len && end <= BUF * (i + 1)
            && c == Cursor(i, end - o) && (i + 1 < nseg ==> end == BUF * (i + 1)) && (i + 1 == nseg ==> end == len)
  {
  }

  lemma EmitStep(segs: Segments, len: nat, c: Cursor)
    requires Sized(segs) && |segs| == SegCount(len) && c.idx < |segs|
    requires 0 < c.left <= SegSize(|segs|, len, c.idx)
    ensures var size := SegSize(|segs|, len, c.idx);
            size <= BUF &&
            Emit(segs, len, c) == segs[c.idx][size - c.left..size] + Emit(segs, len, Cursor(c.idx + 1, 0))
  {
  }

  lemma InnerSlice(w: seq<byte>, a: nat, b: nat, x: nat, y: nat)
    requires a <= b <= |w| && x <= y <= b - a
    ensures w[a..b][x..y] == w[a + x..a + y]
  {
    var s, t := w[a..b][x..y], w[a + x..a + y];
    forall k | 0 <= k < y - x
      ensures s[k] == t[k]
    {
      assert s[k] == w[a..b][x + k] == w[a + (x + k)];
      assert t[k] == w[a + x + k];
    }
  }

  lemma SlicesJoin(w: seq<byte>, a: nat, b: nat, c: nat)
    requires a <= b <= c <= |w|
    ensures w[a..b] + w[b..c] == w[a..c]
  {
  }

  lemma SegmentIsSlice(segs: Segments, i: nat)
    requires Sized(segs) && i < |segs|
    ensures |Flatten(segs)| == BUF * |segs| && segs[i] == Flatten(segs)[BUF * i..BUF * (i + 1)]
  {
    FlattenSplit(segs, i);
    var w := Flatten(segs);
    assert w[BUF * i..][..BUF] == segs[i];
    assert w[BUF * i..][..BUF] == w[BUF * i..BUF * (i + 1)];
  }

  lemma EmitInsideSegment(segs: Segments, len: nat, o: nat)
    requires Sized(segs) && |segs| == SegCount(len) && o < len
    ensures |Flatten(segs)| == BUF * |segs| && o / BUF < |segs|
    ensures Emit(segs, len, ResetAt(|segs|, len, o)) == Flatten(segs)[o..len]
  {
    ResetFacts(|segs|, len, o);
    var i := o / BUF;
    EmitFrom(segs, len, i, o);
  }

  lemma EmitFrom(segs: Segments, len: nat, i: nat, o: nat)
    requires Sized(segs) && |segs| == SegCount(len) && i < |segs|
    requires var end := BUF * i + SegSize(|segs|, len, i);
             && BUF * i <= o < end <= len && end <= BUF * (i + 1)
             && (i + 1 < |segs| ==> end == BUF * (i + 1)) && (i + 1 == |segs| ==> end == len)
    ensures |Flatten(segs)| == BUF * |segs|
    ensures Emit(segs, len, Cursor(i, BUF * i + SegSize(|segs|, len, i) - o)) == Flatten(segs)[o..len]
  {
    hide Flatten; hide Emit; hide SegSize; hide SegCount; hide Sized;
    var size := SegSize(|segs|, len, i);
    var end, w := BUF * i + size, Flatten(segs);
    EmitStep(segs, len, Cursor(i, end - o));
    SegmentIsSlice(segs, i);
    InnerSlice(w, BUF * i, BUF * (i + 1), o - BUF * i, size);
    EmitFromSegment(segs, len, i + 1);
    assert i + 1 < |segs| ==> len <= |w|;
    if i + 1 < |segs| {
      SlicesJoin(w, o, end, len);
    } else {
      assert w[o..end] + [] == w[o..end];
    }
  }

  /** A reset to offset o followed by next until it runs dry hands out exactly the bytes
      [o, len), in order, without gap or overlap - for every offset inside the task. At
      o == len it does so only when the last buffer is full; otherwise the iterator hands
      out the whole last piece again. */
  lemma IteratorHandsOutTheRest(segs: Segments, len: nat, o: nat)
    requires Sized(segs) && |segs| == SegCount(len) && o <= len
    ensures |Flatten(segs)| == BUF * |segs|
    ensures Emit(segs, len, ResetAt(|segs|, len, o)) == Flatten(segs)[o..len] <==>
              o < len || len % BUF == 0
    ensures o == len && len % BUF != 0 ==>
              Emit(segs, len, ResetAt(|segs|, len, o)) == Flatten(segs)[len - len % BUF..len]
  {
    FlattenLength(segs);
    if o < len {
      EmitInsideSegment(segs, len, o);
    } else if len % BUF != 0 {
      assert o / BUF == |segs| - 1 && BUF * (|segs| - 1) == len - len % BUF;
      EmitFromSegment(segs, len, |segs| - 1);
    }
  }

  // ---------- scatter ----------

  /** n bytes taken buffer by buffer, starting `off` bytes into the first one. */
  function CopyOut(segs: Segments, off: nat, n: nat): seq<byte>
    requires Sized(segs) && off <= BUF && off + n <= BUF * |segs|
    decreases |segs|
  {
    if n == 0 then []
    else
      var k := Min(n, BUF - off);
      segs[0][off..off + k] + CopyOut(segs[1..], 0, n - k)
  }

  lemma {:induction false} CopyOutIsRange(segs: Segments, off: nat, n: nat)
    requires Sized(segs) && off <= BUF && off + n <= BUF * |segs|
    ensures |Flatten(segs)| == BUF * |segs|
    ensures CopyOut(segs, off, n) == Flatten(segs)[off..off + n]
    decreases |segs|
  {
    FlattenLength(segs);
    if n == 0 {
    } else {
      hide Flatten;
      FlattenFirst(segs);
      CopyOutIsRange(segs[1..], 0, n - Min(n, BUF - off));
      SliceAcross(segs[0], Flatten(segs[1..]), off, n, Min(n, BUF - off));
    }
  }

  lemma FlattenFirst(segs: Segments)
    requires segs != []
    ensures Flatten(segs) == segs[0] + Flatten(segs[1..])
  {
  }

  /** n bytes from off of a and b put together: k from the end of a, the rest from the front of b. */
  lemma SliceAcross(a: seq<byte>, b: seq<byte>, off: nat, n: nat, k: nat)
    requires off + k <= |a| && k <= n && off + n <= |a| + |b| && (k < n ==> off + k == |a|)
    ensures (a + b)[off..off + n] == a[off..off + k] + b[0..n - k]
  {
  }

  lemma CopyOutNothing(segs: Segments, off: nat)
    requires Sized(segs) && off <= BUF && off <= BUF * |segs|
    ensures CopyOut(segs, off, 0) == []
  {
  }

  lemma CopyOutStep(segs: Segments, i: nat, off: nat, n: nat)
    requires Sized(segs) && i <= |segs| && off <= BUF && 0 < n && off + n <= BUF * (|segs| - i)
    ensures i < |segs| && |segs[i]| == BUF
    ensures var k := Min(n, BUF - off);
            CopyOut(segs[i..], off, n) == segs[i][off..off + k] + CopyOut(segs[i + 1..], 0, n - k)
  {
    assert segs[i..][1..] == segs[i + 1..];
  }

  lemma Regroup(a: seq<byte>, b: seq<byte>, c: seq<byte>)
    ensures a + (b + c) == (a + b) + c
  {
  }

  /** The 64-bit difference of the buffer size and an offset. */
  function SizeMinus(off: nat): nat
    requires off < SIZE_T
  {
    (SIZE_T + BUF - off) % SIZE_T
  }

  lemma SizeMinusWraps(off: nat)
    requires off < SIZE_T
    ensures SizeMinus(off) == if off <= BUF then BUF - off else SIZE_T - (off - BUF)
  {
  }

  // ---------- the task ----------

  class Task {
    const len: nat
    var inlineSegs: seq<seq<byte>>
    var extraSegs: Option<seq<seq<byte>>>
    var nseg: nat
    var curSegIdx: nat
    var curSegLeft: nat

    ghost predicate Valid()
      reads this
    {
      && nseg == SegCount(len) && |Segs()| == nseg && Sized(Segs())
      && (extraSegs.Some? <==> nseg > INLINE_SEGS)
    }

    function Segs(): Segments
      reads this
    {
      if extraSegs.Some? then extraSegs.value else inlineSegs
    }

    ghost predicate InRange()
      reads this
    {
      curSegIdx < nseg ==> curSegLeft <= SegSize(nseg, len, curSegIdx)
    }

    /** What the iterator has still to hand out. */
    ghost function Rest(): seq<byte>
      reads this
      requires Valid() && InRange()
    {
      Emit(Segs(), len, Cursor(curSegIdx, curSegLeft))
    }

    /** A task with its buffers, as alloc_buf_from_pool attaches them. */
    constructor (len: nat, segs: Segments)
      requires |segs| == SegCount(len) && Sized(segs)
      ensures Valid() && Segs() == segs && this.len == len && (extraSegs.Some? <==> nseg > 32)
    {
      this.len := len;
      nseg := |segs|;
      curSegIdx, curSegLeft := 0, 0;
      if |segs| <= INLINE_SEGS {
        inlineSegs, extraSegs := segs, None;
      } else {
        inlineSegs, extraSegs := [], Some(segs);
      }
    }

    /** data_buf_reset_sgl */
    method ResetSgl(sglOffset: nat)
      requires Valid() && sglOffset <= len
      modifies this`curSegIdx, this`curSegLeft
      ensures Valid() && Cursor(curSegIdx, curSegLeft) == ResetAt(nseg, len, sglOffset)
    {
      var i := sglOffset / BUF;
      var offset := i * BUF;
      var found := false;
      while i < nseg && !found
        invariant i == sglOffset / BUF
        invariant offset == if found then Min(i * BUF + BUF, len) else i * BUF
        decreases nseg - i, !found
      {
        offset := offset + BUF;
        if offset > sglOffset {
          if offset > len {
            offset := len;
          }
          found := true;
        } else {
          i := i + 1;
        }
      }
      curSegIdx := i;
      curSegLeft := offset - sglOffset;
    }

    /** data_buf_next_sge: the bytes at (address, length); no bytes when the iterator is dry. */
    method NextSge() returns (data: seq<byte>)
      requires Valid() && InRange()
      modifies this`curSegIdx, this`curSegLeft
      ensures Valid() && InRange()
      ensures data == [] <==> old(curSegIdx) >= nseg
      ensures if old(curSegIdx) >= nseg then curSegIdx == old(curSegIdx) && curSegLeft == old(curSegLeft)
              else curSegIdx == old(curSegIdx) + 1 && curSegLeft == 0
      ensures old(Rest()) == data + Rest()
    {
      if curSegIdx >= nseg {
        return [];
      }
      var addr := if extraSegs.Some? then extraSegs.value[curSegIdx] else inlineSegs[curSegIdx];
      var size := BUF;
      if curSegIdx == nseg - 1 {
        var tail := len % BUF;
        if tail != 0 {
          size := tail;
        }
      }
      if curSegLeft != 0 {
        data := addr[size - curSegLeft..size];
        curSegLeft := 0;
      } else {
        data := addr[..size];
      }
      curSegIdx := curSegIdx + 1;
    }

    /** Next until dry: the rest comes out. */
    method Drain() returns (data: seq<byte>)
      requires Valid() && InRange()
      modifies this`curSegIdx, this`curSegLeft
      ensures Valid() && Segs() == old(Segs()) && data == old(Rest())
    {
      hide Emit; hide SegSize; hide SegCount; hide Sized;
      data := [];
      while true
        invariant Valid() && InRange() && Segs() == old(Segs())
        invariant data + Rest() == old(Rest())
        decreases nseg - curSegIdx
      {
        ghost var rest := Rest();
        var sge := NextSge();
        Regroup(data, sge, Rest());
        if sge == [] {
          break;
        }
        data := data + sge;
      }
      EmitNothing(Segs(), len, curSegIdx, curSegLeft);
      assert data + [] == data;
    }

    /** What the driver does with the iterator: reset to an offset, then next until dry. */
    method Transfer(o: nat) returns (data: seq<byte>)
      requires Valid() && o < len
      modifies this`curSegIdx, this`curSegLeft
      ensures Valid()
      ensures |Flatten(Segs())| >= len && data == Flatten(Segs())[o..len]
    {
      hide Flatten; hide Emit; hide ResetAt;
      EmitInsideSegment(Segs(), len, o);
      ResetIsInRange(nseg, len, o);
      ResetSgl(o);
      data := Drain();
    }

    /** copy_to_buf. The length of the first copy is computed in 64 bits and wraps if the offset lies
        beyond the first buffer; nothing is returned if a copy leaves the buffer it reads. */
    method CopyToBuf(off: nat, n: nat) returns (buf: Option<seq<byte>>)
      requires Valid() && off + n <= len < SIZE_T
      ensures |Flatten(Segs())| >= len
      ensures buf == if off <= 8192 || n == 0 then Some(Flatten(Segs())[off..off + n]) else None
    {
      hide CopyOut; hide Flatten; hide SizeMinus;
      FlattenLength(Segs());
      var copied := [];
      var left: nat, o: nat, i: nat := n, off, 0;
      var segs := if extraSegs.Some? then extraSegs.value else inlineSegs;
      assert segs[0..] == segs;
      while left > 0
        invariant left <= n && i <= |segs|
        invariant off > BUF ==> i == 0 && o == off && left == n && copied == []
        invariant off <= BUF ==> o <= BUF && o + left <= BUF * (|segs| - i)
        invariant off <= BUF ==> copied + CopyOut(segs[i..], o, left) == CopyOut(segs, off, n)
        decreases |segs| - i
      {
        SizeMinusWraps(o);
        var needCopy := Min(left, SizeMinus(o));
        if o + needCopy > BUF {
          return None;
        }
        CopyOutStep(segs, i, o, left);
        var src := segs[i];
        Regroup(copied, src[o..o + needCopy], CopyOut(segs[i + 1..], 0, left - needCopy));
        copied := copied + src[o..o + needCopy];
        i := i + 1;
        o := 0;
        left := left - needCopy;
      }
      if off <= BUF {
        CopyOutNothing(segs[i..], o);
        CopyOutIsRange(segs, off, n);
      }
      assert copied + [] == copied && (n == 0 ==> Flatten(Segs())[off..off + n] == []);
      buf := Some(copied);
    }
  }
}
