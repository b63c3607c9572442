/** The wire forms of network addresses: the legacy form, the tagged form of peers with the feature
    ADDR2, and vectors of addresses. */
module AddrCodec {
  import opened Prelude
  import opened Wire

  /** The first two are thrown. Overrun is no error of the source: it stands for the source writing
      beyond the address it decodes into. */
  datatype Error = EndOfBuffer | Malformed | Overrun

  datatype Result<+T> = Ok(value: T) | Err(error: Error) {
    predicate IsFailure() {
      Err?
    }

    function PropagateFailure<U>(): Result<U>
      requires Err?
    {
      Err(error)
    }

    function Extract(): T
      requires Ok?
    {
      value
    }
  }

  const AF_INET := 2
  const AF_INET6 := 10
  const TYPE_NONE := 0
  const TYPE_LEGACY := 1
  const SIZEOF_SIN := 16
  const SIZEOF_U := 28
  const SIZEOF_STORAGE := 128

  /** u: the union of socket addresses, as large as the largest of them, sockaddr_in6. */
  datatype Addr = Addr(kind: nat, nonce: nat, u: seq<byte>) {
    ghost predicate Valid() {
      kind < Pow256(4) && nonce < Pow256(4) && |u| == SIZEOF_U
    }
  }

  const BLANK := Addr(TYPE_NONE, 0, Zeros(SIZEOF_U))

  /** The address family is kept in the host's order, low byte first. */
  function Family(u: seq<byte>): nat
    requires |u| >= 2
  {
    u[0] as nat + 256 * u[1] as nat
  }

  /** get_sockaddr_len */
  function SockLen(u: seq<byte>): (n: nat)
    requires |u| >= 2
    ensures 2 < n <= SIZEOF_U
  {
    if Family(u) == AF_INET then SIZEOF_SIN else SIZEOF_U
  }

  // ---------- writing ----------

  /** A versioned structure: version 1, readable by version 1, its length, its body. */
  function Envelope(body: seq<byte>): seq<byte> {
    [1] + ([1] + (Le(|body|, 4) + body))
  }

  function Body(a: Addr): seq<byte>
    requires |a.u| == SIZEOF_U
  {
    var n := SockLen(a.u);
    Le(a.kind, 4) + (Le(a.nonce, 4) + (Le(n, 4) + a.u[..n]))
  }

  /** sockaddr_storage: the union and zeros; the family goes high byte first. */
  function Storage(u: seq<byte>): (b: seq<byte>)
    requires |u| == SIZEOF_U
    ensures |b| == SIZEOF_STORAGE
  {
    [u[1], u[0]] + u[2..] + Zeros(SIZEOF_STORAGE - SIZEOF_U)
  }

  function EncodeAddr(a: Addr, addr2: bool): seq<byte>
    requires |a.u| == SIZEOF_U
  {
    if addr2 then [1] + Envelope(Body(a))
    else [0] + ([0] + (Le(0, 2) + (Le(a.nonce, 4) + Storage(a.u))))
  }

  // ---------- reading ----------

  function Take(b: seq<byte>, n: nat): Result<(seq<byte>, seq<byte>)> {
    if n <= |b| then Ok((b[..n], b[n..])) else Err(EndOfBuffer)
  }

  function Num(b: seq<byte>, n: nat): Result<(nat, seq<byte>)> {
    var x :- Take(b, n);
    Ok((FromLe(x.0), x.1))
  }

  /** DECODE_START(1): the body begins at the first result; the second is what remains behind it. */
  function OpenEnvelope(b: seq<byte>): Result<(seq<byte>, nat)> {
    var version :- Num(b, 1);
    var compat :- Num(version.1, 1);
    if compat.0 > 1 then Err(Malformed)
    else
      var len :- Num(compat.1, 4);
      if len.0 > |len.1| then Err(Malformed) else Ok((len.1, |len.1| - len.0))
  }

  /** DECODE_FINISH: skip what the body has beyond what was read. */
  function CloseEnvelope(b: seq<byte>, after: nat): Result<seq<byte>> {
    if |b| < after then Err(Malformed) else Ok(b[|b| - after..])
  }

  /** The socket address of the tagged form, over what the union u held before. */
  function ReadSockaddr(u: seq<byte>, elen: nat, b: seq<byte>): Result<(seq<byte>, seq<byte>)>
    requires |u| == SIZEOF_U
  {
    if elen == 0 then Ok((u, b))
    else if elen < 2 then Err(Malformed)
    else
      var family :- Take(b, 2);
      if elen > SockLen(family.0 + u[2..]) then Err(Malformed)
      else
        var data :- Take(family.1, elen - 2);
        Ok((family.0 + data.0 + u[elen..], data.1))
  }

  /** The same in a vector of addresses, where the length is taken on trust: as many bytes as it says
      are copied to the union, however small that is. A copy that finds too few bytes throws only
      after it has copied those there are. */
  function ReadSockaddrOnTrust(u: seq<byte>, elen: nat, b: seq<byte>): Result<(seq<byte>, seq<byte>)>
    requires |u| == SIZEOF_U
  {
    if elen == 0 then Ok((u, b))
    else if Min(elen, |b|) > SIZEOF_U then Err(Overrun)
    else
      var data :- Take(b, elen);
      Ok((data.0 + u[elen..], data.1))
  }

  /** After the marker 1. onTrust: the reader of vectors. */
  function DecodeTagged(t: Addr, b: seq<byte>, onTrust: bool): Result<(Addr, seq<byte>)>
    requires |t.u| == SIZEOF_U
  {
    var body :- OpenEnvelope(b);
    var kind :- Num(body.0, 4);
    var nonce :- Num(kind.1, 4);
    var elen :- Num(nonce.1, 4);
    var u :- if onTrust then ReadSockaddrOnTrust(t.u, elen.0, elen.1) else ReadSockaddr(t.u, elen.0, elen.1);
    var rest :- CloseEnvelope(u.1, body.1);
    Ok((Addr(kind.0, nonce.0, u.0), rest))
  }

  /** set_sockaddr: families other than IP leave the union as it was. */
  function SetSockaddr(u: seq<byte>, ss: seq<byte>): (r: seq<byte>)
    requires |u| == SIZEOF_U && |ss| == SIZEOF_STORAGE
  {
    if Family(ss) == AF_INET then ss[..SIZEOF_SIN] + u[SIZEOF_SIN..]
    else if Family(ss) == AF_INET6 then ss[..SIZEOF_U]
    else u
  }

  /** decode_legacy_addr_after_marker: three bytes of padding are read and not looked at. */
  function DecodeLegacy(t: Addr, b: seq<byte>): Result<(Addr, seq<byte>)>
    requires |t.u| == SIZEOF_U
  {
    var marker :- Num(b, 1);
    var padding :- Num(marker.1, 2);
    var nonce :- Num(padding.1, 4);
    var ss :- Take(nonce.1, SIZEOF_STORAGE);
    Ok((Addr(TYPE_LEGACY, nonce.0, SetSockaddr(t.u, [ss.0[1], ss.0[0]] + ss.0[2..])), ss.1))
  }

  /** entity_addr_t::decode over an address that held t before. */
  function DecodeAddr(t: Addr, b: seq<byte>): Result<(Addr, seq<byte>)>
    requires |t.u| == SIZEOF_U
  {
    var marker :- Num(b, 1);
    if marker.0 == 0 then DecodeLegacy(t, marker.1)
    else if marker.0 != 1 then Err(Malformed)
    else DecodeTagged(t, marker.1, false)
  }

  // ---------- round trips of one address ----------

  lemma TakeFront(x: seq<byte>, rest: seq<byte>)
    ensures Take(x + rest, |x|) == Ok((x, rest))
  {
  }

  lemma NumFront(n: nat, k: nat, rest: seq<byte>)
    requires n < Pow256(k)
    ensures Num(Le(n, k) + rest, k) == Ok((n, rest))
  {
    TakeFront(Le(n, k), rest);
    LeRoundTrip(n, k);
  }

  lemma ByteFront(n: byte, rest: seq<byte>)
    ensures Num([n] + rest, 1) == Ok((n as nat, rest))
  {
    TakeFront([n], rest);
    assert FromLe([n]) == n as nat + 256 * FromLe([]);
  }

  lemma EnvelopeOpens(body: seq<byte>, rest: seq<byte>)
    requires |body| < Pow256(4)
    ensures OpenEnvelope(Envelope(body) + rest) == Ok((body + rest, |rest|))
  {
    hide Le; hide Pow256; hide Num;
    assert Envelope(body) + rest == [1] + ([1] + (Le(|body|, 4) + (body + rest)));
    ByteFront(1, [1] + (Le(|body|, 4) + (body + rest)));
    ByteFront(1, Le(|body|, 4) + (body + rest));
    NumFront(|body|, 4, body + rest);
  }

  /** The address that arrives: what the wire does not carry stays as it was in the target. */
  function Arrived(a: Addr, t: Addr): Addr
    requires |a.u| == |t.u| == SIZEOF_U
  {
    Addr(a.kind, a.nonce, a.u[..SockLen(a.u)] + t.u[SockLen(a.u)..])
  }

  lemma SockaddrReads(a: Addr, t: Addr, rest: seq<byte>)
    requires |a.u| == |t.u| == SIZEOF_U
    ensures var n := SockLen(a.u);
            && ReadSockaddr(t.u, n, a.u[..n] + rest) == Ok((Arrived(a, t).u, rest))
            && ReadSockaddrOnTrust(t.u, n, a.u[..n] + rest) == Ok((Arrived(a, t).u, rest))
  {
    var n := SockLen(a.u);
    TakeFront(a.u[..n], rest);
    assert a.u[..n] + rest == a.u[..2] + (a.u[2..n] + rest);
    TakeFront(a.u[..2], a.u[2..n] + rest);
    TakeFront(a.u[2..n], rest);
    assert a.u[..2] + a.u[2..n] == a.u[..n];
  }

  /** An address sent in the tagged form arrives, in either reader, whatever follows it. */
  lemma TaggedRoundTrip(a: Addr, t: Addr, rest: seq<byte>, onTrust: bool)
    requires a.Valid() && |t.u| == SIZEOF_U
    ensures DecodeTagged(t, Envelope(Body(a)) + rest, onTrust) == Ok((Arrived(a, t), rest))
  {
    hide Le; hide Num; hide OpenEnvelope; hide Envelope; hide ReadSockaddr; hide ReadSockaddrOnTrust; hide SockLen;
    Widths();
    var n := SockLen(a.u);
    EnvelopeOpens(Body(a), rest);
    assert Body(a) + rest == Le(a.kind, 4) + (Le(a.nonce, 4) + (Le(n, 4) + (a.u[..n] + rest)));
    NumFront(a.kind, 4, Le(a.nonce, 4) + (Le(n, 4) + (a.u[..n] + rest)));
    NumFront(a.nonce, 4, Le(n, 4) + (a.u[..n] + rest));
    NumFront(n, 4, a.u[..n] + rest);
    SockaddrReads(a, t, rest);
  }

  lemma StorageReads(u: seq<byte>, t: seq<byte>)
    requires |u| == |t| == SIZEOF_U
    ensures var ss := Storage(u);
            SetSockaddr(t, [ss[1], ss[0]] + ss[2..]) ==
            if Family(u) == AF_INET || Family(u) == AF_INET6 then u[..SockLen(u)] + t[SockLen(u)..] else t
  {
    var ss := Storage(u);
    var back := [ss[1], ss[0]] + ss[2..];
    assert back == u + Zeros(SIZEOF_STORAGE - SIZEOF_U);
    assert back[..SIZEOF_SIN] == u[..SIZEOF_SIN];
    assert back[..SIZEOF_U] == u;
  }

  /** What arrives of an address sent in the legacy form: its type is lost, and so is an address
      that is neither IPv4 nor IPv6. */
  function ArrivedLegacy(a: Addr, t: Addr): Addr
    requires |a.u| == |t.u| == SIZEOF_U
  {
    Addr(TYPE_LEGACY, a.nonce,
         if Family(a.u) == AF_INET || Family(a.u) == AF_INET6 then Arrived(a, t).u else t.u)
  }

  lemma LegacyRoundTrip(a: Addr, t: Addr, rest: seq<byte>)
    requires a.Valid() && |t.u| == SIZEOF_U
    ensures DecodeLegacy(t, [0] + (Le(0, 2) + (Le(a.nonce, 4) + Storage(a.u))) + rest) ==
            Ok((ArrivedLegacy(a, t), rest))
  {
    hide Le; hide Num; hide Storage; hide SetSockaddr; hide SockLen;
    Widths();
    assert [0] + (Le(0, 2) + (Le(a.nonce, 4) + Storage(a.u))) + rest ==
           [0] + (Le(0, 2) + (Le(a.nonce, 4) + (Storage(a.u) + rest)));
    ByteFront(0, Le(0, 2) + (Le(a.nonce, 4) + (Storage(a.u) + rest)));
    NumFront(0, 2, Le(a.nonce, 4) + (Storage(a.u) + rest));
    NumFront(a.nonce, 4, Storage(a.u) + rest);
    TakeFront(Storage(a.u), rest);
    StorageReads(a.u, t.u);
  }

  function Received(a: Addr, t: Addr, addr2: bool): Addr
    requires |a.u| == |t.u| == SIZEOF_U
  {
    if addr2 then Arrived(a, t) else ArrivedLegacy(a, t)
  }

  /** Every address decodes to what Received says, and decoding stops where encoding did. */
  lemma RoundTrip(a: Addr, t: Addr, addr2: bool, rest: seq<byte>)
    requires a.Valid() && |t.u| == SIZEOF_U
    ensures DecodeAddr(t, EncodeAddr(a, addr2) + rest) == Ok((Received(a, t, addr2), rest))
  {
    hide Num; hide DecodeTagged; hide DecodeLegacy; hide Le; hide Storage; hide Body; hide Envelope;
    if addr2 {
      assert EncodeAddr(a, true) + rest == [1] + (Envelope(Body(a)) + rest);
      ByteFront(1, Envelope(Body(a)) + rest);
      TaggedRoundTrip(a, t, rest, false);
    } else {
      var after := [0] + (Le(0, 2) + (Le(a.nonce, 4) + Storage(a.u)));
      assert EncodeAddr(a, false) + rest == [0] + (after + rest);
      ByteFront(0, after + rest);
      LegacyRoundTrip(a, t, rest);
    }
  }

  /** The tagged form brings back the same address exactly when the target's bytes behind the socket
      address are those of the sender; a legacy address needs also to be of the legacy type, and IPv4
      or IPv6 unless the target held the same. */
  lemma SameAddressIff(a: Addr, t: Addr)
    requires |a.u| == |t.u| == SIZEOF_U
    ensures Received(a, t, true) == a <==> a.u[SockLen(a.u)..] == t.u[SockLen(a.u)..]
    ensures Received(a, t, false) == a <==>
              && a.kind == TYPE_LEGACY
              && (if Family(a.u) == AF_INET || Family(a.u) == AF_INET6 then a.u[SockLen(a.u)..] == t.u[SockLen(a.u)..]
                  else a.u == t.u)
  {
    var n := SockLen(a.u);
    assert a.u == a.u[..n] + a.u[n..];
    var u := Arrived(a, t).u;
    assert u[n..] == t.u[n..] && u[..n] == a.u[..n];
  }

  /** Behind its socket address a zero-padded address has zeros. */
  predicate ZeroPadded(a: Addr)
    requires |a.u| == SIZEOF_U
  {
    a.u[SockLen(a.u)..] == Zeros(SIZEOF_U - SockLen(a.u))
  }

  lemma BlankTarget(a: Addr)
    requires |a.u| == SIZEOF_U && ZeroPadded(a)
    ensures Received(a, BLANK, true) == a
    ensures Family(a.u) == AF_INET || Family(a.u) == AF_INET6 ==> Received(a, BLANK, false) == a.(kind := TYPE_LEGACY)
  {
    SameAddressIff(a, BLANK);
    assert BLANK.u[SockLen(a.u)..] == Zeros(SIZEOF_U - SockLen(a.u));
  }

  // ---------- vectors ----------

  ghost predicate Sendable(v: seq<Addr>) {
    forall i :: 0 <= i < |v| ==> |v[i].u| == SIZEOF_U && v[i].Valid() && ZeroPadded(v[i])
  }

  function EncodeEach(v: seq<Addr>): seq<byte>
    requires forall i :: 0 <= i < |v| ==> |v[i].u| == SIZEOF_U
  {
    if v == [] then [] else EncodeAddr(v[0], true) + EncodeEach(v[1..])
  }

  /** The index of the first address of the legacy type, or |v|. */
  function FirstLegacy(v: seq<Addr>): (k: nat)
    ensures k <= |v| && (k < |v| ==> v[k].kind == TYPE_LEGACY)
    ensures forall j :: 0 <= j < k ==> v[j].kind != TYPE_LEGACY
  {
    if v == [] || v[0].kind == TYPE_LEGACY then 0 else 1 + FirstLegacy(v[1..])
  }

  /** The one address that a peer without the feature is told. */
  function LegacyChoice(v: seq<Addr>): Addr {
    var k := FirstLegacy(v);
    if k < |v| then v[k] else if v == [] then BLANK else v[0]
  }

  function EncodeVec(v: seq<Addr>, addr2: bool): seq<byte>
    requires forall i :: 0 <= i < |v| ==> |v[i].u| == SIZEOF_U
  {
    if addr2 then [2] + (Le(|v|, 4) + EncodeEach(v)) else EncodeAddr(LegacyChoice(v), false)
  }

  function DecodeEach(n: nat, b: seq<byte>): Result<(seq<Addr>, seq<byte>)> {
    if n == 0 then Ok(([], b))
    else
      var a :- DecodeAddr(BLANK, b);
      var more :- DecodeEach(n - 1, a.1);
      Ok(([a.0] + more.0, more.1))
  }

  /** entity_addrvec_t::decode into an empty vector. */
  function DecodeVec(b: seq<byte>): Result<(seq<Addr>, seq<byte>)> {
    var marker :- Num(b, 1);
    if marker.0 == 0 then
      var a :- DecodeLegacy(BLANK, marker.1);
      Ok(([a.0], a.1))
    else if marker.0 == 1 then
      var a :- DecodeTagged(BLANK, marker.1, true);
      Ok(([a.0], a.1))
    else if marker.0 > 2 then Err(Malformed)
    else
      var count :- Num(marker.1, 4);
      DecodeEach(count.0, count.1)
  }

  /** The first address of a vector, and the rest of it. */
  lemma FirstOfEach(v: seq<Addr>, rest: seq<byte>)
    requires Sendable(v) && v != []
    ensures DecodeEach(|v|, EncodeEach(v) + rest) ==
            match DecodeEach(|v| - 1, EncodeEach(v[1..]) + rest)
            case Ok(more) => Ok(([v[0]] + more.0, more.1))
            case Err(e) => Err(e)
  {
    hide DecodeAddr; hide EncodeAddr; hide ZeroPadded; hide Received;
    assert EncodeEach(v) + rest == EncodeAddr(v[0], true) + (EncodeEach(v[1..]) + rest);
    RoundTrip(v[0], BLANK, true, EncodeEach(v[1..]) + rest);
    BlankTarget(v[0]);
  }

  lemma {:induction false} EachRoundTrip(v: seq<Addr>, rest: seq<byte>)
    requires Sendable(v)
    ensures DecodeEach(|v|, EncodeEach(v) + rest) == Ok((v, rest))
  {
    hide DecodeAddr; hide EncodeAddr; hide ZeroPadded;
    if v == [] {
      assert EncodeEach(v) + rest == rest;
    } else {
      EachRoundTrip(v[1..], rest);
      FirstOfEach(v, rest);
      assert [v[0]] + v[1..] == v;
    }
  }

  /** A vector of zero-padded addresses arrives whole; a peer without the feature learns one address,
      as a legacy one. */
  lemma VectorRoundTrip(v: seq<Addr>, rest: seq<byte>)
    requires |v| < Pow256(4) && Sendable(v)
    ensures DecodeVec(EncodeVec(v, true) + rest) == Ok((v, rest))
    ensures DecodeVec(EncodeVec(v, false) + rest) == Ok(([Received(LegacyChoice(v), BLANK, false)], rest))
  {
    hide Num; hide DecodeTagged; hide DecodeLegacy; hide Le; hide EncodeEach; hide EncodeAddr;
    hide DecodeEach; hide Received; hide LegacyChoice;
    assert EncodeVec(v, true) + rest == [2] + (Le(|v|, 4) + (EncodeEach(v) + rest));
    ByteFront(2, Le(|v|, 4) + (EncodeEach(v) + rest));
    NumFront(|v|, 4, EncodeEach(v) + rest);
    EachRoundTrip(v, rest);
    ChoiceIsValid(v);
    SingleInVector(LegacyChoice(v), false, rest);
  }

  lemma ChoiceIsValid(v: seq<Addr>)
    requires forall i :: 0 <= i < |v| ==> v[i].Valid()
    ensures LegacyChoice(v).Valid()
  {
    Widths();
  }

  /** Either form of a single address reads as a vector of one. */
  lemma SingleInVector(a: Addr, addr2: bool, rest: seq<byte>)
    requires a.Valid()
    ensures DecodeVec(EncodeAddr(a, addr2) + rest) == Ok(([Received(a, BLANK, addr2)], rest))
  {
    hide Num; hide DecodeTagged; hide DecodeLegacy; hide Le; hide Storage; hide Body; hide Envelope; hide Arrived;
    if addr2 {
      assert EncodeAddr(a, true) + rest == [1] + (Envelope(Body(a)) + rest);
      ByteFront(1, Envelope(Body(a)) + rest);
      TaggedRoundTrip(a, BLANK, rest, true);
    } else {
      var after := [0] + (Le(0, 2) + (Le(a.nonce, 4) + Storage(a.u)));
      assert EncodeAddr(a, false) + rest == [0] + (after + rest);
      ByteFront(0, after + rest);
      LegacyRoundTrip(a, BLANK, rest);
    }
  }

  /** The reader of vectors treats a tagged socket address as the reader of addresses does exactly when
      its length is 0, or at least 2 and no more than its family has; it then also fails alike. */
  lemma TrustIsHarmlessIff(u: seq<byte>, elen: nat, b: seq<byte>)
    requires |u| == SIZEOF_U
    ensures ReadSockaddrOnTrust(u, elen, b) == ReadSockaddr(u, elen, b) <==>
            elen == 0 || (elen >= 2 && (|b| < 2 || elen <= SockLen(b[..2] + u[2..])))
  {
    if 2 <= elen <= |b| {
      assert b[..elen] == b[..2] + b[2..][..elen - 2];
      assert b[elen..] == b[2..][elen - 2..];
    }
  }

  // ---------- the bytes ----------

  /** The number in the k bytes at position i. */
  function NumAt(b: seq<byte>, i: nat, k: nat): nat
    requires i + k <= |b|
  {
    FromLe(b[i..i + k])
  }

  lemma NumOfRest(b: seq<byte>, i: nat, k: nat)
    requires i <= |b|
    ensures Num(b[i..], k) == if i + k <= |b| then Ok((NumAt(b, i, k), b[i + k..])) else Err(EndOfBuffer)
  {
    if i + k <= |b| {
      assert b[i..][..k] == b[i..i + k] && b[i..][k..] == b[i + k..];
    }
  }

  /** The tagged form, byte by byte. */
  lemma TaggedLayout(a: Addr)
    requires a.Valid()
    ensures var b, n := EncodeAddr(a, true), if a.u[0] == 2 && a.u[1] == 0 then 16 else 28;
            && |b| == 19 + n && b[..3] == [1, 1, 1] && NumAt(b, 3, 4) == 12 + n
            && NumAt(b, 7, 4) == a.kind && NumAt(b, 11, 4) == a.nonce && NumAt(b, 15, 4) == n
            && b[19..] == a.u[..n]
  {
    hide Le; hide FromLe; hide Pow256;
    Widths();
    var b, n := EncodeAddr(a, true), SockLen(a.u);
    LeRoundTrip(12 + n, 4);
    LeRoundTrip(a.kind, 4);
    LeRoundTrip(a.nonce, 4);
    LeRoundTrip(n, 4);
    assert b[3..7] == Le(12 + n, 4) && b[7..11] == Le(a.kind, 4);
    assert b[11..15] == Le(a.nonce, 4) && b[15..19] == Le(n, 4);
  }

  /** The legacy form: a zero, the nonce, and a sockaddr_storage whose family has its high byte first. */
  lemma LegacyLayout(a: Addr)
    requires a.Valid()
    ensures var b := EncodeAddr(a, false);
            && |b| == 136 && b[..4] == [0, 0, 0, 0] && NumAt(b, 4, 4) == a.nonce
            && b[8] == a.u[1] && b[9] == a.u[0] && b[10..36] == a.u[2..28]
            && forall i :: 36 <= i < 136 ==> b[i] == 0
  {
    hide FromLe; hide Pow256;
    Widths();
    var b := EncodeAddr(a, false);
    assert Le(0, 2) == [0] + Le(0, 1) == [0, 0];
    LeRoundTrip(a.nonce, 4);
    assert b[4..8] == Le(a.nonce, 4);
  }

  /** A vector: a two, the number of addresses, and one after the other in the tagged form. */
  lemma VectorLayout(v: seq<Addr>, a: Addr)
    requires |a.u| == SIZEOF_U && forall i :: 0 <= i < |v| ==> |v[i].u| == SIZEOF_U
    ensures EncodeVec(v, true) == [2] + Le(|v|, 4) + EncodeEach(v)
    ensures EncodeEach([]) == [] && EncodeEach(v + [a]) == EncodeEach(v) + EncodeAddr(a, true)
    decreases |v|
  {
    hide EncodeAddr; hide Le;
    if v == [] {
      assert EncodeEach([a]) == EncodeAddr(a, true) + EncodeEach([]);
    } else {
      VectorLayout(v[1..], a);
      assert (v + [a])[1..] == v[1..] + [a];
    }
  }

  /** Which address a peer without the feature is told. */
  lemma LegacyChoiceIs(v: seq<Addr>, k: nat)
    requires k <= |v| && forall j :: 0 <= j < k ==> v[j].kind != TYPE_LEGACY
    requires k < |v| ==> v[k].kind == TYPE_LEGACY
    requires forall i :: 0 <= i < |v| ==> |v[i].u| == SIZEOF_U
    ensures EncodeVec(v, false) == EncodeAddr(if k < |v| then v[k] else if v != [] then v[0] else BLANK, false)
  {
    assert FirstLegacy(v) == k;
  }

  /** The length a family allows: 16 bytes for IPv4, 28 for everything else. */
  function FamilyLength(low: byte, high: byte): nat {
    if low == 2 && high == 0 then 16 else 28
  }

  /** What the envelope of a tagged address must be like: all four numbers there, and a body that fits. */
  predicate Sound(b: seq<byte>) {
    |b| >= 18 && b[1] <= 1 && NumAt(b, 2, 4) <= |b| - 6
  }

  lemma ByteAt(b: seq<byte>, i: nat)
    requires i < |b|
    ensures NumAt(b, i, 1) == b[i] as nat
  {
    assert b[i..i + 1] == [b[i]];
    assert FromLe([b[i]]) == b[i] as nat + 256 * FromLe([]);
  }

  /** The four numbers of a tagged address, for any bytes. */
  lemma NumbersOf(b: seq<byte>)
    ensures Sound(b) ==>
              && OpenEnvelope(b) == Ok((b[6..], |b| - 6 - NumAt(b, 2, 4)))
              && Num(b[6..], 4) == Ok((NumAt(b, 6, 4), b[10..])) && Num(b[10..], 4) == Ok((NumAt(b, 10, 4), b[14..]))
              && Num(b[14..], 4) == Ok((NumAt(b, 14, 4), b[18..]))
    ensures !Sound(b) ==>
              || OpenEnvelope(b).Err?
              || Num(OpenEnvelope(b).value.0, 4).Err?
              || Num(Num(OpenEnvelope(b).value.0, 4).value.1, 4).Err?
              || Num(Num(Num(OpenEnvelope(b).value.0, 4).value.1, 4).value.1, 4).Err?
  {
    hide Num; hide FromLe; hide NumAt;
    assert b[0..] == b;
    NumOfRest(b, 0, 1);
    if |b| >= 1 {
      NumOfRest(b, 1, 1);
    }
    if |b| >= 2 {
      ByteAt(b, 1);
      NumOfRest(b, 2, 4);
    }
    if |b| >= 6 {
      NumOfRest(b, 6, 4);
    }
    if |b| >= 10 {
      NumOfRest(b, 10, 4);
    }
    if |b| >= 14 {
      NumOfRest(b, 14, 4);
    }
  }

  /** The socket address is inside the body and as long as its family allows, or not there. */
  predicate Fits(b: seq<byte>)
    requires Sound(b)
  {
    var n := NumAt(b, 14, 4);
    n + 12 <= NumAt(b, 2, 4) && (n == 0 || 2 <= n <= FamilyLength(b[18], b[19]))
  }

  lemma SockaddrIsRead(u: seq<byte>, n: nat, b: seq<byte>)
    requires |u| == SIZEOF_U && 0 < n && 18 + n <= |b|
    ensures ReadSockaddr(u, n, b[18..]) ==
            if 2 <= n <= FamilyLength(b[18], b[19]) then Ok((b[18..18 + n] + u[n..], b[18 + n..])) else Err(Malformed)
  {
    if n >= 2 {
      assert b[18..][..2] == b[18..20] && b[18..][2..] == b[20..];
      assert b[18..20] + b[20..][..n - 2] == b[18..18 + n] && b[20..][n - 2..] == b[18 + n..];
    }
  }

  /** Which bytes the reader of addresses takes for a tagged address, what it makes of them, and where
      it goes on: behind the body, however much of it was read. */
  lemma TaggedIsRead(t: Addr, b: seq<byte>)
    requires |t.u| == SIZEOF_U
    ensures DecodeTagged(t, b, false).Ok? <==> Sound(b) && Fits(b)
    ensures DecodeTagged(t, b, false).Ok? ==>
              var n, end := NumAt(b, 14, 4), 6 + NumAt(b, 2, 4);
              && 18 + n <= end <= |b| && n <= 28
              && DecodeTagged(t, b, false).value ==
                 (Addr(NumAt(b, 6, 4), NumAt(b, 10, 4), b[18..18 + n] + t.u[n..]), b[end..])
  {
    hide Num; hide FromLe; hide NumAt; hide OpenEnvelope;
    NumbersOf(b);
    if Sound(b) {
      var n := NumAt(b, 14, 4);
      if n == 0 {
        assert b[18..18] + t.u[0..] == t.u;
      } else if 18 + n <= |b| {
        SockaddrIsRead(t.u, n, b);
      }
    }
  }

  /** The reader of vectors asks for less: the socket address need only be inside the body and the union. */
  lemma TaggedIsReadOnTrust(b: seq<byte>)
    ensures DecodeTagged(BLANK, b, true).Ok? <==>
              Sound(b) && NumAt(b, 14, 4) + 12 <= NumAt(b, 2, 4) && NumAt(b, 14, 4) <= 28
    ensures DecodeTagged(BLANK, b, true).Ok? ==>
              var n, end := NumAt(b, 14, 4), 6 + NumAt(b, 2, 4);
              && 18 + n <= end <= |b|
              && DecodeTagged(BLANK, b, true).value ==
                 (Addr(NumAt(b, 6, 4), NumAt(b, 10, 4), b[18..18 + n] + BLANK.u[n..]), b[end..])
  {
    hide Num; hide FromLe; hide NumAt; hide OpenEnvelope;
    NumbersOf(b);
    if Sound(b) {
      var n := NumAt(b, 14, 4);
      if n == 0 {
        assert b[18..18] + BLANK.u[0..] == BLANK.u;
      } else if 18 + n <= |b| {
        assert b[18..][..n] == b[18..18 + n] && b[18..][n..] == b[18 + n..];
      }
    }
  }

  /** What the reader of a legacy address, behind its marker, makes of any bytes. */
  lemma LegacyIsRead(t: Addr, b: seq<byte>)
    requires |t.u| == SIZEOF_U
    ensures DecodeLegacy(t, b) ==
            if |b| < 135 then Err(EndOfBuffer)
            else
              var u := if b[7] == 0 && b[8] == 2 then [2, 0] + b[9..23] + t.u[16..]
                       else if b[7] == 0 && b[8] == 10 then [10, 0] + b[9..35]
                       else t.u;
              Ok((Addr(1, NumAt(b, 3, 4), u), b[135..]))
  {
    hide Num; hide FromLe;
    assert b[0..] == b;
    NumOfRest(b, 0, 1);
    if |b| >= 1 {
      NumOfRest(b, 1, 2);
    }
    if |b| >= 3 {
      NumOfRest(b, 3, 4);
    }
    if |b| >= 135 {
      assert b[7..][..128] == b[7..135] && b[7..][128..] == b[135..];
      StorageIsRead(t.u, b[7..135]);
      assert b[7..135][2..16] == b[9..23] && b[7..135][2..28] == b[9..35];
    }
  }

  lemma StorageIsRead(u: seq<byte>, ss: seq<byte>)
    requires |u| == SIZEOF_U && |ss| == SIZEOF_STORAGE
    ensures SetSockaddr(u, [ss[1], ss[0]] + ss[2..]) ==
            if ss[0] == 0 && ss[1] == 2 then [2, 0] + ss[2..16] + u[16..]
            else if ss[0] == 0 && ss[1] == 10 then [10, 0] + ss[2..28]
            else u
  {
    var back := [ss[1], ss[0]] + ss[2..];
    assert back[..16] == [ss[1], ss[0]] + ss[2..16] && back[..28] == [ss[1], ss[0]] + ss[2..28];
  }

  /** The first byte says which form it is. */
  lemma MarkerDecides(t: Addr, b: seq<byte>)
    requires |t.u| == SIZEOF_U
    ensures DecodeAddr(t, b) ==
            if b == [] then Err(EndOfBuffer) else if b[0] == 0 then DecodeLegacy(t, b[1..])
            else if b[0] == 1 then DecodeTagged(t, b[1..], false) else Err(Malformed)
    ensures b == [] ==> DecodeVec(b) == Err(EndOfBuffer)
    ensures b != [] && b[0] > 2 ==> DecodeVec(b) == Err(Malformed)
    ensures b != [] && b[0] == 2 ==>
              DecodeVec(b) == if |b| < 5 then Err(EndOfBuffer) else DecodeEach(NumAt(b, 1, 4), b[5..])
    ensures b != [] && b[0] == 0 ==>
              DecodeVec(b) == match DecodeLegacy(BLANK, b[1..]) case Ok(a) => Ok(([a.0], a.1)) case Err(e) => Err(e)
    ensures b != [] && b[0] == 1 ==>
              DecodeVec(b) ==
              match DecodeTagged(BLANK, b[1..], true) case Ok(a) => Ok(([a.0], a.1)) case Err(e) => Err(e)
  {
    hide Num; hide FromLe; hide DecodeTagged; hide DecodeLegacy; hide DecodeEach; hide NumAt;
    assert b[0..] == b;
    NumOfRest(b, 0, 1);
    if b != [] {
      ByteAt(b, 0);
      NumOfRest(b, 1, 4);
    }
  }

  // ---------- writing beyond the address ----------

  lemma NumStaysInside()
    ensures forall b: seq<byte>, n: nat :: Num(b, n) != Err(Overrun)
  {
  }

  lemma LegacyStaysInside(b: seq<byte>)
    ensures DecodeLegacy(BLANK, b) != Err(Overrun)
  {
    hide Num; hide SetSockaddr;
    NumStaysInside();
  }

  lemma DecodeStaysInside(t: Addr, b: seq<byte>)
    requires |t.u| == SIZEOF_U
    ensures DecodeAddr(t, b) != Err(Overrun)
  {
    hide Num; hide SetSockaddr; hide SockLen;
    NumStaysInside();
  }

  lemma {:induction false} ElementsStayInside(n: nat, b: seq<byte>)
    ensures DecodeEach(n, b) != Err(Overrun)
    decreases n
  {
    hide DecodeAddr;
    if n > 0 {
      DecodeStaysInside(BLANK, b);
      var a := DecodeAddr(BLANK, b);
      if a.Ok? {
        ElementsStayInside(n - 1, a.value.1);
      }
    }
  }

  /** A tagged address makes the reader of vectors write beyond it exactly if the envelope is sound,
      the socket address is said to be longer than the union, and so are the bytes that are left. */
  lemma TaggedOverrunIff(b: seq<byte>)
    ensures DecodeTagged(BLANK, b, true) == Err(Overrun) <==>
            && |b| >= 18 && NumAt(b, 1, 1) <= 1 && NumAt(b, 2, 4) <= |b| - 6
            && SIZEOF_U < NumAt(b, 14, 4) && SIZEOF_U < |b| - 18
  {
    hide Num; hide FromLe; hide NumAt;
    NumStaysInside();
    assert b[0..] == b;
    NumOfRest(b, 0, 1);
    if |b| >= 1 {
      NumOfRest(b, 1, 1);
    }
    if |b| >= 2 {
      NumOfRest(b, 2, 4);
    }
    if |b| >= 6 {
      NumOfRest(b, 6, 4);
    }
    if |b| >= 10 {
      NumOfRest(b, 10, 4);
    }
    if |b| >= 14 {
      NumOfRest(b, 14, 4);
    }
  }

  /** So decoding a vector does, on exactly these bytes. */
  lemma VectorOverrunIff(b: seq<byte>)
    ensures DecodeVec(b) == Err(Overrun) <==>
            && |b| >= 19 && NumAt(b, 0, 1) == 1 && NumAt(b, 2, 1) <= 1 && NumAt(b, 3, 4) <= |b| - 7
            && SIZEOF_U < NumAt(b, 15, 4) && SIZEOF_U < |b| - 19
  {
    hide Num; hide FromLe; hide DecodeTagged; hide DecodeEach;
    NumStaysInside();
    assert b[0..] == b;
    NumOfRest(b, 0, 1);
    if |b| >= 1 {
      var rest := b[1..];
      TaggedOverrunIff(rest);
      if |b| >= 19 {
        assert rest[1..2] == b[2..3] && rest[2..6] == b[3..7] && rest[14..18] == b[15..19];
      }
      LegacyStaysInside(rest);
      NumOfRest(b, 1, 4);
      if |b| >= 5 {
        ElementsStayInside(NumAt(b, 1, 4), b[5..]);
      }
    }
  }

  /** Such bytes: any address whose length is given as elen, with data behind it that is longer than
      the union, be there elen bytes of it or fewer. */
  lemma OverlongAddress(kind: nat, nonce: nat, elen: nat, data: seq<byte>)
    requires kind < Pow256(4) && nonce < Pow256(4) && elen < Pow256(4) && 12 + |data| < Pow256(4)
    requires SIZEOF_U < elen && SIZEOF_U < |data|
    ensures DecodeVec([1] + Envelope(Le(kind, 4) + (Le(nonce, 4) + (Le(elen, 4) + data)))) == Err(Overrun)
  {
    hide Le; hide Num; hide OpenEnvelope; hide Envelope;
    var body := Le(kind, 4) + (Le(nonce, 4) + (Le(elen, 4) + data));
    ByteFront(1, Envelope(body));
    EnvelopeOpens(body, []);
    assert Envelope(body) + [] == Envelope(body) && body + [] == body;
    NumFront(kind, 4, Le(nonce, 4) + (Le(elen, 4) + data));
    NumFront(nonce, 4, Le(elen, 4) + data);
    NumFront(elen, 4, data);
  }
}
