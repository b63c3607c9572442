/** The wire form of directory entries: a header of 24 bytes, the name, and zeros up to a
    multiple of eight. */
module Dirents {
  import opened Prelude
  import opened Wire

  const NAME_OFFSET := 24

  datatype Dirent = Dirent(ino: nat, off: nat, kind: nat, name: seq<byte>)

  predicate Encodable(d: Dirent) {
    d.ino < Pow256(8) && d.off < Pow256(8) && d.kind < Pow256(4) && |d.name| < Pow256(4)
  }

  /** FUSE_DIRENT_ALIGN */
  function Align(n: nat): (m: nat)
    ensures n <= m < n + 8 && m % 8 == 0
  {
    (n + 7) / 8 * 8
  }

  function EntrySize(name: seq<byte>): (n: nat)
    ensures n >= NAME_OFFSET
  {
    Align(NAME_OFFSET + |name|)
  }

  function Header(d: Dirent): (b: seq<byte>)
    ensures |b| == NAME_OFFSET
  {
    Le(d.ino, 8) + Le(d.off, 8) + Le(|d.name|, 4) + Le(d.kind, 4)
  }

  function Encode(d: Dirent): (b: seq<byte>)
    ensures |b| == EntrySize(d.name)
  {
    Header(d) + d.name + Zeros(EntrySize(d.name) - NAME_OFFSET - |d.name|)
  }

  function EncodeAll(ds: seq<Dirent>): seq<byte> {
    if ds == [] then [] else Encode(ds[0]) + EncodeAll(ds[1..])
  }

  /** Where everything is: two numbers of eight bytes, two of four, the name, and zeros up to the next
      multiple of eight. */
  lemma EntryLayout(d: Dirent)
    ensures var b, end := Encode(d), 24 + |d.name|;
            && b[..8] == Le(d.ino, 8) && b[8..16] == Le(d.off, 8)
            && b[16..20] == Le(|d.name|, 4) && b[20..24] == Le(d.kind, 4)
            && b[24..end] == d.name && |b| % 8 == 0 && end <= |b| < end + 8
            && forall i :: end <= i < |b| ==> b[i] == 0
  {
    hide Le; hide Align;
  }

  // ---------- the reader's side ----------

  function ParseHeader(b: seq<byte>): (ino_off_len_kind: (nat, nat, nat, nat))
    requires |b| >= NAME_OFFSET
  {
    (FromLe(b[..8]), FromLe(b[8..16]), FromLe(b[16..20]), FromLe(b[20..24]))
  }

  /** Entries one after the other; each says how long its name is. */
  function Parse(b: seq<byte>): Option<seq<Dirent>>
    decreases |b|
  {
    if b == [] then Some([])
    else if |b| < NAME_OFFSET then None
    else
      var (ino, off, len, kind) := ParseHeader(b);
      var size := Align(NAME_OFFSET + len);
      if size > |b| then None
      else
        match Parse(b[size..])
        case None => None
        case Some(rest) => Some([Dirent(ino, off, kind, b[NAME_OFFSET..NAME_OFFSET + len])] + rest)
  }

  lemma HeaderRoundTrip(d: Dirent, rest: seq<byte>)
    requires Encodable(d)
    ensures ParseHeader(Header(d) + rest) == (d.ino, d.off, |d.name|, d.kind)
  {
    hide Le; hide FromLe; hide Pow256;
    var b := Header(d) + rest;
    assert b[..8] == Le(d.ino, 8);
    assert b[8..16] == Le(d.off, 8);
    assert b[16..20] == Le(|d.name|, 4);
    assert b[20..24] == Le(d.kind, 4);
    LeRoundTrip(d.ino, 8);
    LeRoundTrip(d.off, 8);
    LeRoundTrip(|d.name|, 4);
    LeRoundTrip(d.kind, 4);
  }

  lemma ParseFirst(d: Dirent, tail: seq<byte>)
    requires Encodable(d)
    ensures Parse(Encode(d) + tail) ==
            match Parse(tail)
            case None => None
            case Some(rest) => Some([d] + rest)
  {
    hide Header; hide ParseHeader; hide Encodable; hide Align;
    var b, pad := Encode(d) + tail, Zeros(EntrySize(d.name) - NAME_OFFSET - |d.name|);
    assert b == Header(d) + (d.name + pad + tail);
    HeaderRoundTrip(d, d.name + pad + tail);
    assert b[NAME_OFFSET..NAME_OFFSET + |d.name|] == d.name;
    assert b[EntrySize(d.name)..] == tail;
  }

  /** What was encoded is read back, entry by entry. */
  lemma {:induction false} ParseInvertsEncode(ds: seq<Dirent>)
    requires forall i :: 0 <= i < |ds| ==> Encodable(ds[i])
    ensures Parse(EncodeAll(ds)) == Some(ds)
  {
    if ds == [] {
    } else {
      hide Parse; hide Encode; hide Encodable;
      ParseInvertsEncode(ds[1..]);
      ParseFirst(ds[0], EncodeAll(ds[1..]));
      assert [ds[0]] + ds[1..] == ds;
    }
  }

  lemma {:induction false} EncodeAppend(ds: seq<Dirent>, d: Dirent)
    ensures EncodeAll(ds + [d]) == EncodeAll(ds) + Encode(d)
  {
    if ds == [] {
      assert EncodeAll(ds + [d]) == Encode(d) + EncodeAll([]);
    } else {
      assert (ds + [d])[1..] == ds[1..] + [d];
      EncodeAppend(ds[1..], d);
    }
  }

  // ---------- how many entries fit ----------

  /** The number of entries at the front of ds that fit into size bytes. */
  function Fit(ds: seq<Dirent>, size: nat): (k: nat)
    ensures k <= |ds|
  {
    if ds == [] || EntrySize(ds[0].name) > size then 0 else 1 + Fit(ds[1..], size - EntrySize(ds[0].name))
  }

  lemma NothingEncoded(ds: seq<Dirent>)
    requires ds == []
    ensures EncodeAll(ds) == []
  {
  }

  lemma FirstEncoded(ds: seq<Dirent>, k: nat)
    requires 0 < k <= |ds|
    ensures EncodeAll(ds[..k]) == Encode(ds[0]) + EncodeAll(ds[1..][..k - 1])
  {
    hide Encode;
    assert ds[..k][0] == ds[0] && ds[..k][1..] == ds[1..][..k - 1];
  }

  lemma {:induction false} FitIsLongest(ds: seq<Dirent>, size: nat, k: nat)
    requires k <= |ds|
    ensures |EncodeAll(ds[..k])| <= size <==> k <= Fit(ds, size)
  {
    hide EncodeAll; hide Encode; hide EntrySize;
    if k == 0 {
      NothingEncoded(ds[..0]);
    } else {
      FirstEncoded(ds, k);
      if EntrySize(ds[0].name) <= size {
        FitIsLongest(ds[1..], size - EntrySize(ds[0].name), k - 1);
      }
    }
  }
}
