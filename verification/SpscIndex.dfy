/** Index arithmetic of the single-producer single-consumer ring buffer.

    A ring of n slots has a write index and a read index, both below n. One slot
    always stays unused, so equal indices mean empty. `size_t` subtraction wraps
    modulo 2^64 and is written out with `Wrap`. */
module SpscIndex {

  const SIZE_T: int := 0x1_0000_0000_0000_0000

  /** What an unsigned 64-bit register holds after computing x. */
  function Wrap(x: int): nat {
    x % SIZE_T
  }

  /** Ring sizes that can exist: an array of n objects fits in half the address space. */
  predicate Sized(n: nat) {
    1 <= n && 2 * n <= SIZE_T
  }

  /** The slot k places after i on the circle. */
  function Slot(i: nat, k: nat, n: nat): (s: nat)
    requires i < n && k <= n
    ensures s < n
  {
    if i + k < n then i + k else i + k - n
  }

  lemma SlotsCompose(i: nat, j: nat, k: nat, n: nat)
    requires i < n && j + k <= n
    ensures Slot(Slot(i, j, n), k, n) == Slot(i, j + k, n)
  {
  }

  lemma SlotsDistinct(i: nat, j: nat, k: nat, n: nat)
    requires i < n && j < k < n
    ensures Slot(i, j, n) != Slot(i, k, n)
  {
  }

  method NextIndex(arg: nat, maxSize: nat) returns (ret: nat)
    requires Sized(maxSize) && arg < maxSize
    ensures ret == Slot(arg, 1, maxSize)
  {
    ret := arg + 1;
    while ret >= maxSize
      invariant ret == arg + 1 || ret == arg + 1 - maxSize
    {
      ret := ret - maxSize;
    }
  }

  /** The number of steps from the read index to the write index. */
  function ReadAvailable(w: nat, r: nat, n: nat): (k: nat)
    requires Sized(n) && w < n && r < n
    ensures k < n && Slot(r, k, n) == w
  {
    if w >= r then w - r else Wrap(Wrap(w + n) - r)
  }

  lemma OneRead(w: nat, r: nat, n: nat)
    requires Sized(n) && w < n && r < n && w != r
    ensures ReadAvailable(w, r, n) > 0
    ensures ReadAvailable(w, Slot(r, 1, n), n) == ReadAvailable(w, r, n) - 1
  {
  }

  /** The number of steps from the write index to the slot just before the read index;
      the first subtraction wraps whenever w >= r. */
  function WriteAvailable(w: nat, r: nat, n: nat): (k: nat)
    requires Sized(n) && w < n && r < n
    ensures k < n && Slot(w, k + 1, n) == r
  {
    var ret := Wrap(Wrap(r - w) - 1);
    if w >= r then Wrap(ret + n) else ret
  }

  /** Occupied and free slots always add up to n - 1. */
  lemma AvailabilityIsComplementary(w: nat, r: nat, n: nat)
    requires Sized(n) && w < n && r < n
    ensures ReadAvailable(w, r, n) + WriteAvailable(w, r, n) == n - 1
  {
    assert Slot(r, ReadAvailable(w, r, n), n) == w;
    assert Slot(w, WriteAvailable(w, r, n) + 1, n) == r;
  }

  /** The full test of the single push and the zero test of the bulk push agree. */
  lemma FullTestsAgree(w: nat, r: nat, n: nat)
    requires Sized(n) && w < n && r < n
    ensures Slot(w, 1, n) == r <==> WriteAvailable(w, r, n) == 0
  {
    assert Slot(w, WriteAvailable(w, r, n) + 1, n) == r;
  }

  /** The k elements found by walking the circle from slot r. */
  function Window<T>(buf: seq<T>, r: nat, k: nat): (s: seq<T>)
    requires r < |buf| && k <= |buf|
    ensures |s| == k
    ensures forall j :: 0 <= j < k ==> s[j] == buf[Slot(r, j, |buf|)]
  {
    seq(k, j requires 0 <= j < k => buf[Slot(r, j, |buf|)])
  }

  /** A window is one stretch of the buffer, or the end of the buffer and then its beginning. */
  lemma WindowSections<T>(buf: seq<T>, r: nat, k: nat)
    requires r < |buf| && k <= |buf|
    ensures Window(buf, r, k) ==
            if r + k <= |buf| then buf[r..r + k] else buf[r..|buf|] + buf[0..k - (|buf| - r)]
  {
  }

  /** The buffer once the first i items have been written from slot w on. */
  function CopyIn<T>(buf: seq<T>, w: nat, items: seq<T>, i: nat): (b: seq<T>)
    requires w < |buf| && i <= |items| < |buf|
    ensures |b| == |buf|
  {
    if i == 0 then buf
    else CopyIn(buf, w, items, i - 1)[Slot(w, i - 1, |buf|) := items[i - 1]]
  }

  lemma {:induction false} CopyInAt<T>(buf: seq<T>, w: nat, items: seq<T>, i: nat, k: nat)
    requires w < |buf| && i <= |items| < |buf| && k < |buf|
    ensures CopyIn(buf, w, items, i)[Slot(w, k, |buf|)] ==
            if k < i then items[k] else buf[Slot(w, k, |buf|)]
  {
    if i > 0 {
      CopyInAt(buf, w, items, i - 1, k);
      if k < i - 1 {
        SlotsDistinct(w, k, i - 1, |buf|);
      } else if k > i - 1 {
        SlotsDistinct(w, i - 1, k, |buf|);
      }
    }
  }

  /** Writing into the free part leaves the occupied part alone. */
  lemma CopyInKeepsWindow<T>(buf: seq<T>, w: nat, r: nat, items: seq<T>, i: nat)
    requires Sized(|buf|) && w < |buf| && r < |buf| && i <= |items| < |buf|
    requires |items| <= WriteAvailable(w, r, |buf|)
    ensures Window(CopyIn(buf, w, items, i), r, ReadAvailable(w, r, |buf|)) ==
            Window(buf, r, ReadAvailable(w, r, |buf|))
  {
    var n := |buf|;
    var len := ReadAvailable(w, r, n);
    AvailabilityIsComplementary(w, r, n);
    forall j | 0 <= j < len
      ensures CopyIn(buf, w, items, i)[Slot(r, j, n)] == buf[Slot(r, j, n)]
    {
      assert Slot(r, j, n) == Slot(w, n - len + j, n);
      CopyInAt(buf, w, items, i, n - len + j);
    }
  }

  /** After the copy the occupied part, extended by the new items, reads as old ++ items. */
  lemma CopyInExtendsWindow<T>(buf: seq<T>, w: nat, r: nat, items: seq<T>)
    requires Sized(|buf|) && w < |buf| && r < |buf| && |items| < |buf|
    requires |items| <= WriteAvailable(w, r, |buf|)
    ensures ReadAvailable(w, r, |buf|) + |items| < |buf|
    ensures Window(CopyIn(buf, w, items, |items|), r, ReadAvailable(w, r, |buf|) + |items|) ==
            Window(buf, r, ReadAvailable(w, r, |buf|)) + items
  {
    hide Slot; hide Window; hide CopyIn; hide ReadAvailable; hide WriteAvailable;
    var n := |buf|;
    var len := ReadAvailable(w, r, n);
    AvailabilityIsComplementary(w, r, n);
    CopyInKeepsWindow(buf, w, r, items, |items|);
    var after := CopyIn(buf, w, items, |items|);
    forall j | 0 <= j < len + |items|
      ensures after[Slot(r, j, n)] == (Window(buf, r, len) + items)[j]
    {
      if j < len {
        assert Window(after, r, len)[j] == Window(buf, r, len)[j];
      } else {
        SlotsCompose(r, len, j - len, n);
        CopyInAt(buf, w, items, |items|, j - len);
      }
    }
  }

  /** Dropping the first k slots of a window is the window k slots further on. */
  lemma WindowSplits<T>(buf: seq<T>, r: nat, k: nat, len: nat)
    requires r < |buf| && k <= len < |buf|
    ensures Window(buf, r, len) == Window(buf, r, k) + Window(buf, Slot(r, k, |buf|), len - k)
  {
    forall j | k <= j < len
      ensures Slot(Slot(r, k, |buf|), j - k, |buf|) == Slot(r, j, |buf|)
    {
      SlotsCompose(r, k, j - k, |buf|);
    }
  }
}
