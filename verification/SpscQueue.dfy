/** The ring buffer's operations as they run on one side, between the load of the other
    side's index and the store of their own.

    Each operation receives the other side's index as a parameter: the value its acquire
    load returned. That value may be out of date by the time it is used, so the contracts
    hold for every value that is *behind* the real one. */
module SpscQueue {
  import opened Prelude
  import opened SpscIndex

  datatype Ring<T> = Ring(buf: seq<T>, w: nat, r: nat)
  {
    ghost predicate Valid() {
      Sized(|buf|) && w < |buf| && r < |buf|
    }

    /** The published elements, oldest first: what the abstract queue holds. */
    ghost function Contents(): seq<T>
      requires Valid()
    {
      Window(buf, r, ReadAvailable(w, r, |buf|))
    }
  }

  /** seenRead is a read index the producer may have loaded: seen from the write index it
      leaves no more room than there really is. */
  ghost predicate BehindReader<T>(q: Ring<T>, seenRead: nat)
    requires q.Valid()
  {
    seenRead < |q.buf| &&
    ReadAvailable(q.w, q.r, |q.buf|) <= ReadAvailable(q.w, seenRead, |q.buf|)
  }

  /** seenWrite is a write index the consumer may have loaded. */
  ghost predicate BehindWriter<T>(q: Ring<T>, seenWrite: nat)
    requires q.Valid()
  {
    seenWrite < |q.buf| &&
    ReadAvailable(seenWrite, q.r, |q.buf|) <= ReadAvailable(q.w, q.r, |q.buf|)
  }

  // ---------- the operations as functions on the ring ----------

  function PushOne<T>(q: Ring<T>, t: T, seenRead: nat): (Ring<T>, bool)
    requires q.w < |q.buf|
  {
    var next := Slot(q.w, 1, |q.buf|);
    if next == seenRead then (q, false)
    else (q.(buf := q.buf[q.w := t], w := next), true)
  }

  function PushMany<T>(q: Ring<T>, items: seq<T>, seenRead: nat): (Ring<T>, nat)
    requires Sized(|q.buf|) && q.w < |q.buf| && seenRead < |q.buf|
  {
    var k := Min(|items|, WriteAvailable(q.w, seenRead, |q.buf|));
    (q.(buf := CopyIn(q.buf, q.w, items[..k], k), w := Slot(q.w, k, |q.buf|)), k)
  }

  function PopMany<T>(q: Ring<T>, limit: nat, seenWrite: nat): (Ring<T>, seq<T>)
    requires Sized(|q.buf|) && q.r < |q.buf| && seenWrite < |q.buf|
  {
    var k := Min(limit, ReadAvailable(seenWrite, q.r, |q.buf|));
    (q.(r := Slot(q.r, k, |q.buf|)), Window(q.buf, q.r, k))
  }

  // ---------- what they do to the abstract queue ----------

  /** A bulk push appends exactly the longest prefix that fits the snapshot, and never
      overfills the ring. */
  lemma PushManyAppends<T>(q: Ring<T>, items: seq<T>, seenRead: nat)
    requires q.Valid() && BehindReader(q, seenRead)
    ensures var (q', k) := PushMany(q, items, seenRead);
            q'.Valid() && |q'.buf| == |q.buf| &&
            k == Min(|items|, WriteAvailable(q.w, seenRead, |q.buf|)) &&
            q'.Contents() == q.Contents() + items[..k] && |q'.Contents()| < |q.buf|
  {
    var n := |q.buf|;
    var k := Min(|items|, WriteAvailable(q.w, seenRead, n));
    AvailabilityIsComplementary(q.w, q.r, n);
    AvailabilityIsComplementary(q.w, seenRead, n);
    CopyInExtendsWindow(q.buf, q.w, q.r, items[..k]);
    SlotsCompose(q.r, ReadAvailable(q.w, q.r, n), k, n);
  }

  /** A bulk pop takes exactly the oldest elements, as many as asked for and seen. */
  lemma PopManyTakesOldest<T>(q: Ring<T>, limit: nat, seenWrite: nat)
    requires q.Valid() && BehindWriter(q, seenWrite)
    ensures var (q', out) := PopMany(q, limit, seenWrite);
            q'.Valid() && q'.buf == q.buf && q'.w == q.w &&
            |out| == Min(limit, ReadAvailable(seenWrite, q.r, |q.buf|)) &&
            q.Contents() == out + q'.Contents()
  {
    var n := |q.buf|;
    var k := Min(limit, ReadAvailable(seenWrite, q.r, n));
    var len := ReadAvailable(q.w, q.r, n);
    WindowSplits(q.buf, q.r, k, len);
    SlotsCompose(q.r, k, len - k, n);
  }

  /** The producer's writes stay off every slot the consumer may be reading. */
  lemma PushManyKeepsPublishedSlots<T>(q: Ring<T>, items: seq<T>, seenRead: nat, j: nat)
    requires q.Valid() && BehindReader(q, seenRead)
    requires j < ReadAvailable(q.w, q.r, |q.buf|)
    ensures PushMany(q, items, seenRead).0.buf[Slot(q.r, j, |q.buf|)] == q.buf[Slot(q.r, j, |q.buf|)]
  {
    var n := |q.buf|;
    var k := Min(|items|, WriteAvailable(q.w, seenRead, n));
    AvailabilityIsComplementary(q.w, q.r, n);
    AvailabilityIsComplementary(q.w, seenRead, n);
    CopyInKeepsWindow(q.buf, q.w, q.r, items[..k], k);
    assert Window(CopyIn(q.buf, q.w, items[..k], k), q.r, ReadAvailable(q.w, q.r, n))[j] == q.Contents()[j];
  }

  // ---------- bulk operations are repeated single ones ----------

  function PushRepeated<T>(q: Ring<T>, items: seq<T>, seenRead: nat): (res: (Ring<T>, nat))
    requires q.w < |q.buf|
    ensures res.1 <= |items| && res.0.w < |res.0.buf| && |res.0.buf| == |q.buf|
  {
    if items == [] then (q, 0)
    else
      var (q1, n1) := PushRepeated(q, items[..|items| - 1], seenRead);
      if n1 < |items| - 1 then (q1, n1)
      else
        var (q2, ok) := PushOne(q1, items[|items| - 1], seenRead);
        (q2, if ok then n1 + 1 else n1)
  }

  function PopRepeated<T>(q: Ring<T>, limit: nat, seenWrite: nat): (res: (Ring<T>, seq<T>))
    requires Sized(|q.buf|) && q.r < |q.buf| && seenWrite < |q.buf|
    decreases limit
  {
    if limit == 0 then (q, [])
    else
      var (q1, out1) := PopMany(q, 1, seenWrite);
      if out1 == [] then (q, [])
      else
        var (q2, out2) := PopRepeated(q1, limit - 1, seenWrite);
        (q2, out1 + out2)
  }

  lemma CopyInPrefix<T>(buf: seq<T>, w: nat, items: seq<T>, more: seq<T>, i: nat)
    requires w < |buf| && i <= |items| <= |more| < |buf| && items == more[..|items|]
    ensures CopyIn(buf, w, items, i) == CopyIn(buf, w, more, i)
  {
  }

  /** Bulk push = pushing the elements one after another against the same snapshot. */
  lemma {:induction false} PushManyIsRepeatedPush<T>(q: Ring<T>, items: seq<T>, seenRead: nat)
    requires Sized(|q.buf|) && q.w < |q.buf| && seenRead < |q.buf|
    ensures PushMany(q, items, seenRead) == PushRepeated(q, items, seenRead)
  {
    var n := |q.buf|;
    var avail := WriteAvailable(q.w, seenRead, n);
    if items == [] {
    } else {
      var front := items[..|items| - 1];
      PushManyIsRepeatedPush(q, front, seenRead);
      if avail < |items| - 1 {
        assert items[..avail] == front[..avail];
      } else {
        var k := |items| - 1;
        assert front[..k] == front && items[..|items|] == items;
        SlotsCompose(q.w, k, 1, n);
        if avail == k {
          assert Slot(q.w, k + 1, n) == seenRead;
          assert items[..k] == front;
        } else {
          assert Slot(q.w, avail + 1, n) == seenRead;
          if avail + 1 < n {
            SlotsDistinct(q.w, k + 1, avail + 1, n);
          } else {
            SlotsDistinct(q.w, 0, k + 1, n);
          }
          CopyInPrefix(q.buf, q.w, front, items, k);
        }
      }
    }
  }

  /** Bulk pop = popping elements one after another against the same snapshot. */
  lemma {:induction false} PopManyIsRepeatedPop<T>(q: Ring<T>, limit: nat, seenWrite: nat)
    requires Sized(|q.buf|) && q.r < |q.buf| && seenWrite < |q.buf|
    ensures PopMany(q, limit, seenWrite) == PopRepeated(q, limit, seenWrite)
    decreases limit
  {
    hide ReadAvailable; hide Window;
    var n := |q.buf|;
    var avail := ReadAvailable(seenWrite, q.r, n);
    if limit == 0 || avail == 0 {
    } else {
      var q1 := PopMany(q, 1, seenWrite).0;
      PopManyIsRepeatedPop(q1, limit - 1, seenWrite);
      var k := Min(limit, avail);
      OneRead(seenWrite, q.r, n);
      WindowSplits(q.buf, q.r, 1, k);
      SlotsCompose(q.r, 1, k - 1, n);
    }
  }

  // ---------- the class ----------

  class RingBuffer<T(0)> {
    const buffer: array<T>
    var writeIndex: nat
    var readIndex: nat

    ghost predicate Valid()
      reads this, buffer
    {
      View().Valid()
    }

    ghost function View(): Ring<T>
      reads this, buffer
    {
      Ring(buffer[..], writeIndex, readIndex)
    }

    /** A run-time sized ring holds max_elements elements in max_elements + 1 slots. */
    constructor (maxElements: nat)
      requires 2 * (maxElements + 1) <= SIZE_T
      ensures Valid() && fresh(buffer) && View().Contents() == []
      ensures buffer.Length == maxElements + 1
    {
      buffer := new T[maxElements + 1];
      writeIndex, readIndex := 0, 0;
    }

    method Push(t: T, seenRead: nat) returns (ok: bool)
      requires Valid() && BehindReader(View(), seenRead)
      modifies this`writeIndex, buffer
      ensures Valid() && (View(), ok) == PushOne(old(View()), t, seenRead)
      ensures View().Contents() == old(View().Contents()) + (if ok then [t] else [])
      ensures ok <==> WriteAvailable(old(writeIndex), seenRead, buffer.Length) > 0
    {
      ghost var before := View();
      PushManyIsRepeatedPush(before, [t], seenRead);
      PushManyAppends(before, [t], seenRead);
      FullTestsAgree(writeIndex, seenRead, buffer.Length);
      assert PushRepeated(before, [], seenRead) == (before, 0);
      assert [t][..0] == [] && [t][..1] == [t];
      var next := NextIndex(writeIndex, buffer.Length);
      if next == seenRead {
        return false;
      }
      buffer[writeIndex] := t;
      writeIndex := next;
      return true;
    }

    /** Copies the items src[from..to] to the slots at, at + 1, ... */
    method CopySection(src: seq<T>, from: nat, to: nat, at: nat, ghost base: seq<T>, ghost w: nat)
      requires from <= to <= |src| < buffer.Length == |base| && w < |base|
      requires at + (to - from) <= buffer.Length
      requires from < to ==> at == Slot(w, from, |base|) && (w + from < |base| ==> w + to <= |base|)
      requires buffer[..] == CopyIn(base, w, src, from)
      modifies buffer
      ensures buffer[..] == CopyIn(base, w, src, to)
    {
      var i := from;
      while i < to
        invariant from <= i <= to
        invariant buffer[..] == CopyIn(base, w, src, i)
      {
        buffer[at + (i - from)] := src[i];
        i := i + 1;
      }
    }

    method PushBulk(input: seq<T>, seenRead: nat) returns (count: nat)
      requires Valid() && BehindReader(View(), seenRead)
      modifies this`writeIndex, buffer
      ensures Valid() && (View(), count) == PushMany(old(View()), input, seenRead)
      ensures count == Min(|input|, WriteAvailable(old(writeIndex), seenRead, buffer.Length))
      ensures View().Contents() == old(View().Contents()) + input[..count]
    {
      ghost var before := View();
      var maxSize := buffer.Length;
      PushManyAppends(before, input, seenRead);
      var avail := WriteAvailable(writeIndex, seenRead, maxSize);
      if avail == 0 {
        assert before.buf == CopyIn(before.buf, before.w, input[..0], 0);
        return 0;
      }
      count := Min(|input|, avail);
      var newWrite := writeIndex + count;
      var last := input[..count];
      if writeIndex + count > maxSize {
        var count0 := maxSize - writeIndex;
        CopySection(last, 0, count0, writeIndex, before.buf, before.w);
        CopySection(last, count0, count, 0, before.buf, before.w);
        newWrite := newWrite - maxSize;
      } else {
        CopySection(last, 0, count, writeIndex, before.buf, before.w);
        if newWrite == maxSize {
          newWrite := 0;
        }
      }
      writeIndex := newWrite;
    }

    method ConsumeOne(seenWrite: nat) returns (ok: bool, out: seq<T>)
      requires Valid() && BehindWriter(View(), seenWrite)
      modifies this`readIndex
      ensures Valid() && (View(), out) == PopMany(old(View()), 1, seenWrite)
      ensures ok <==> seenWrite != old(readIndex)
      ensures |out| == (if ok then 1 else 0) && old(View().Contents()) == out + View().Contents()
    {
      PopManyTakesOldest(View(), 1, seenWrite);
      if seenWrite == readIndex {
        return false, [];
      }
      out := [buffer[readIndex]];
      assert out == Window(buffer[..], readIndex, 1);
      var next := NextIndex(readIndex, buffer.Length);
      readIndex := next;
      ok := true;
    }

    /** Reads buffer[from..to] in order: the body of copy_and_delete and of
        run_functor_and_delete. */
    method ReadSection(from: nat, to: nat) returns (out: seq<T>)
      requires from <= to <= buffer.Length
      ensures out == buffer[..][from..to]
    {
      out := [];
      var i := from;
      while i < to
        invariant from <= i <= to
        invariant out == buffer[..][from..i]
      {
        out := out + [buffer[i]];
        i := i + 1;
      }
    }

    method Pop(outputCount: nat, seenWrite: nat) returns (out: seq<T>)
      requires Valid() && BehindWriter(View(), seenWrite)
      modifies this`readIndex
      ensures Valid() && (View(), out) == PopMany(old(View()), outputCount, seenWrite)
      ensures |out| == Min(outputCount, ReadAvailable(seenWrite, old(readIndex), buffer.Length))
      ensures old(View().Contents()) == out + View().Contents()
    {
      hide Window; hide ReadAvailable;
      PopManyTakesOldest(View(), outputCount, seenWrite);
      var maxSize := buffer.Length;
      var avail := ReadAvailable(seenWrite, readIndex, maxSize);
      if avail == 0 {
        assert Window(buffer[..], readIndex, 0) == [];
        return [];
      }
      var count := Min(outputCount, avail);
      WindowSections(buffer[..], readIndex, count);
      var newRead := readIndex + count;
      if readIndex + count > maxSize {
        var count0 := maxSize - readIndex;
        var count1 := count - count0;
        out := ReadSection(readIndex, maxSize);
        var rest := ReadSection(0, count1);
        out := out + rest;
        newRead := newRead - maxSize;
      } else {
        out := ReadSection(readIndex, readIndex + count);
        if newRead == maxSize {
          newRead := 0;
        }
      }
      readIndex := newRead;
    }

    /** consume_all and pop_to_output_iterator: everything the snapshot shows. */
    method ConsumeAll(seenWrite: nat) returns (out: seq<T>)
      requires Valid() && BehindWriter(View(), seenWrite)
      modifies this`readIndex
      ensures Valid() && (View(), out) ==
              PopMany(old(View()), ReadAvailable(seenWrite, old(readIndex), buffer.Length), seenWrite)
      ensures readIndex == seenWrite
      ensures old(View().Contents()) == out + View().Contents()
    {
      var avail := ReadAvailable(seenWrite, readIndex, buffer.Length);
      out := Pop(avail, seenWrite);
    }
  }
}
