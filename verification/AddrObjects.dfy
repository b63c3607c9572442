/** The objects that write and read network addresses. A read that throws is a failure whose
    error is returned; what the object and the iterator hold then is not specified. */
module AddrObjects {
  import opened Prelude
  import opened Wire
  import opened AddrCodec

  datatype Unit = Unit

  /** bufferlist::iterator */
  class BufferIter {
    const data: seq<byte>
    var off: nat

    ghost predicate Valid()
      reads this
    {
      off <= |data|
    }

    ghost function Rest(): seq<byte>
      requires Valid()
      reads this
    {
      data[off..]
    }

    constructor (data: seq<byte>)
      ensures Valid() && Rest() == data
    {
      this.data, off := data, 0;
    }

    method Copy(n: nat) returns (r: Result<seq<byte>>)
      requires Valid()
      modifies this
      ensures Valid()
      ensures match Take(old(Rest()), n)
              case Ok(p) => r == Ok(p.0) && Rest() == p.1
              case Err(e) => r == Err(e)
    {
      if n > |data| - off {
        return Err(EndOfBuffer);
      }
      r := Ok(data[off..off + n]);
      assert data[off..][..n] == data[off..off + n];
      off := off + n;
    }

    method Get(n: nat) returns (r: Result<nat>)
      requires Valid()
      modifies this
      ensures Valid()
      ensures match Num(old(Rest()), n)
              case Ok(p) => r == Ok(p.0) && Rest() == p.1
              case Err(e) => r == Err(e)
    {
      var b :- Copy(n);
      r := Ok(FromLe(b));
    }

    /** DECODE_START(1). @return  where the structure ends */
    method DecodeStart() returns (r: Result<nat>)
      requires Valid()
      modifies this
      ensures Valid()
      ensures match OpenEnvelope(old(Rest()))
              case Ok(p) => r.Ok? && r.value <= |data| && |data| - r.value == p.1 && Rest() == p.0
              case Err(e) => r == Err(e)
    {
      var version :- Get(1);
      var compat :- Get(1);
      if compat > 1 {
        return Err(Malformed);
      }
      var len :- Get(4);
      if len > |data| - off {
        return Err(Malformed);
      }
      r := Ok(off + len);
    }

    /** DECODE_FINISH */
    method DecodeFinish(end: nat) returns (r: Result<Unit>)
      requires Valid() && end <= |data|
      modifies this
      ensures Valid()
      ensures match CloseEnvelope(old(Rest()), |data| - end)
              case Ok(rest) => r.Ok? && Rest() == rest
              case Err(e) => r == Err(e)
    {
      if off > end {
        return Err(Malformed);
      }
      off := end;
      r := Ok(Unit);
    }
  }

  /** entity_addr_t */
  class EntityAddr {
    var kind: nat
    var nonce: nat
    var u: seq<byte>

    ghost function View(): Addr
      reads this
    {
      Addr(kind, nonce, u)
    }

    constructor ()
      ensures View() == BLANK
    {
      kind, nonce, u := TYPE_NONE, 0, Zeros(SIZEOF_U);
    }

    method EncodeTo(addr2: bool) returns (bl: seq<byte>)
      requires |u| == SIZEOF_U
      ensures bl == EncodeAddr(View(), addr2)
    {
      if !addr2 {
        bl := Le(0, 4);
        bl := bl + Le(nonce, 4);
        bl := bl + Storage(u);
        LegacyMarker();
        return;
      }
      var elen := SockLen(u);
      var body := Le(kind, 4);
      body := body + Le(nonce, 4);
      body := body + Le(elen, 4);
      if elen != 0 {
        body := body + u[..elen];
      }
      assert body == Body(View());
      bl := [1] + Envelope(body);
    }

    method DecodeLegacyAfterMarker(bl: BufferIter) returns (r: Result<Unit>)
      requires bl.Valid() && |u| == SIZEOF_U
      modifies this, bl
      ensures bl.Valid() && |u| == SIZEOF_U
      ensures match DecodeLegacy(old(View()), old(bl.Rest()))
              case Ok(p) => r.Ok? && View() == p.0 && bl.Rest() == p.1
              case Err(e) => r == Err(e)
    {
      var marker :- bl.Get(1);
      var padding :- bl.Get(2);
      kind := TYPE_LEGACY;
      nonce :- bl.Get(4);
      var ss :- bl.Copy(SIZEOF_STORAGE);
      u := SetSockaddr(u, [ss[1], ss[0]] + ss[2..]);
      r := Ok(Unit);
    }

    /** The socket address as entity_addr_t reads it. */
    method DecodeSockaddr(bl: BufferIter, elen: nat) returns (r: Result<Unit>)
      requires bl.Valid() && |u| == SIZEOF_U
      modifies this`u, bl
      ensures bl.Valid() && |u| == SIZEOF_U
      ensures match ReadSockaddr(old(u), elen, old(bl.Rest()))
              case Ok(p) => r.Ok? && u == p.0 && bl.Rest() == p.1
              case Err(e) => r == Err(e)
    {
      hide Family;
      if elen == 0 {
        return Ok(Unit);
      }
      if elen < 2 {
        return Err(Malformed);
      }
      ghost var was := u;
      var family :- bl.Copy(2);
      u := family + u[2..];
      if elen > SockLen(u) {
        return Err(Malformed);
      }
      var data :- bl.Copy(elen - 2);
      u := u[..2] + data + u[elen..];
      assert u == family + data + was[elen..];
      r := Ok(Unit);
    }

    /** The socket address as entity_addrvec_t reads it. */
    method DecodeSockaddrOnTrust(bl: BufferIter, elen: nat) returns (r: Result<Unit>)
      requires bl.Valid() && |u| == SIZEOF_U
      modifies this`u, bl
      ensures bl.Valid() && |u| == SIZEOF_U
      ensures match ReadSockaddrOnTrust(old(u), elen, old(bl.Rest()))
              case Ok(p) => r.Ok? && u == p.0 && bl.Rest() == p.1
              case Err(e) => r == Err(e)
    {
      if elen != 0 {
        if Min(elen, |bl.data| - bl.off) > SIZEOF_U {
          // the copy goes beyond the address, whether or not it then throws
          return Err(Overrun);
        }
        var raw :- bl.Copy(elen);
        u := raw + u[elen..];
      }
      r := Ok(Unit);
    }

    /** The branch for marker 1; onTrust is how entity_addrvec_t reads the socket address. */
    method DecodeTaggedAfterMarker(bl: BufferIter, onTrust: bool) returns (r: Result<Unit>)
      requires bl.Valid() && |u| == SIZEOF_U
      modifies this, bl
      ensures bl.Valid() && |u| == SIZEOF_U
      ensures match DecodeTagged(old(View()), old(bl.Rest()), onTrust)
              case Ok(p) => r.Ok? && View() == p.0 && bl.Rest() == p.1
              case Err(e) => r == Err(e)
    {
      hide ReadSockaddr; hide ReadSockaddrOnTrust; hide Num; hide OpenEnvelope; hide CloseEnvelope;
      var end :- bl.DecodeStart();
      kind :- bl.Get(4);
      nonce :- bl.Get(4);
      var elen :- bl.Get(4);
      if onTrust {
        var _ :- DecodeSockaddrOnTrust(bl, elen);
      } else {
        var _ :- DecodeSockaddr(bl, elen);
      }
      r := bl.DecodeFinish(end);
    }

    method DecodeFrom(bl: BufferIter) returns (r: Result<Unit>)
      requires bl.Valid() && |u| == SIZEOF_U
      modifies this, bl
      ensures bl.Valid() && |u| == SIZEOF_U
      ensures match DecodeAddr(old(View()), old(bl.Rest()))
              case Ok(p) => r.Ok? && View() == p.0 && bl.Rest() == p.1
              case Err(e) => r == Err(e)
    {
      var marker :- bl.Get(1);
      if marker == 0 {
        r := DecodeLegacyAfterMarker(bl);
      } else if marker != 1 {
        r := Err(Malformed);
      } else {
        r := DecodeTaggedAfterMarker(bl, false);
      }
    }
  }

  /** entity_addrvec_t */
  class EntityAddrVec {
    var v: seq<Addr>

    /** What EncodeTo sends of one address. */
    method EncodeOne(a: Addr, addr2: bool) returns (bl: seq<byte>)
      requires |a.u| == SIZEOF_U
      ensures bl == EncodeAddr(a, addr2)
    {
      var x := new EntityAddr();
      x.kind, x.nonce, x.u := a.kind, a.nonce, a.u;
      bl := x.EncodeTo(addr2);
    }

    method EncodeTo(addr2: bool) returns (bl: seq<byte>)
      requires forall i :: 0 <= i < |v| ==> |v[i].u| == SIZEOF_U
      ensures bl == EncodeVec(v, addr2)
    {
      hide EncodeAddr; hide Le;
      if !addr2 {
        if |v| > 0 {
          var p := 0;
          while p < |v|
            invariant p <= |v| && forall j :: 0 <= j < p ==> v[j].kind != TYPE_LEGACY
          {
            if v[p].kind == TYPE_LEGACY {
              bl := EncodeOne(v[p], false);
              return;
            }
            p := p + 1;
          }
          bl := EncodeOne(v[0], false);
        } else {
          bl := EncodeOne(BLANK, false);
        }
        return;
      }
      bl := [2] + Le(|v|, 4);
      var each := EncodeElements();
      bl := bl + each;
    }

    method EncodeElements() returns (bl: seq<byte>)
      requires forall i :: 0 <= i < |v| ==> |v[i].u| == SIZEOF_U
      ensures bl == EncodeEach(v)
    {
      hide EncodeAddr;
      bl := [];
      var p := 0;
      while p < |v|
        invariant p <= |v| && bl + EncodeEach(v[p..]) == EncodeEach(v)
      {
        var one := EncodeOne(v[p], true);
        assert v[p..][1..] == v[p + 1..];
        bl := bl + one;
        p := p + 1;
      }
      assert bl + [] == bl;
    }

    method DecodeFrom(bl: BufferIter) returns (r: Result<Unit>)
      requires bl.Valid()
      modifies this, bl
      ensures bl.Valid()
      ensures match DecodeVec(old(bl.Rest()))
              case Ok(p) => r.Ok? && v == p.0 && bl.Rest() == p.1
              case Err(e) => r == Err(e)
    {
      hide DecodeTagged; hide DecodeLegacy; hide DecodeAddr; hide Num;
      var marker :- bl.Get(1);
      if marker == 0 || marker == 1 {
        var addr := new EntityAddr();
        if marker == 0 {
          var _ :- addr.DecodeLegacyAfterMarker(bl);
        } else {
          var _ :- addr.DecodeTaggedAfterMarker(bl, true);
        }
        v := [Addr(addr.kind, addr.nonce, addr.u)];
        return Ok(Unit);
      }
      if marker > 2 {
        return Err(Malformed);
      }
      var count :- bl.Get(4);
      r := DecodeElements(count, bl);
    }

    method DecodeElements(count: nat, bl: BufferIter) returns (r: Result<Unit>)
      requires bl.Valid()
      modifies this, bl
      ensures bl.Valid()
      ensures match DecodeEach(count, old(bl.Rest()))
              case Ok(p) => r.Ok? && v == p.0 && bl.Rest() == p.1
              case Err(e) => r == Err(e)
    {
      hide DecodeAddr;
      v := [];
      ghost var start := bl.Rest();
      NothingBefore(DecodeEach(count, start));
      while |v| < count
        invariant bl.Valid() && |v| <= count
        invariant DecodeEach(count, start) == Behind(v, DecodeEach(count - |v|, bl.Rest()))
      {
        OneMore(v, count - |v|, bl.Rest());
        var addr := new EntityAddr();
        var _ :- addr.DecodeFrom(bl);
        v := v + [Addr(addr.kind, addr.nonce, addr.u)];
      }
      assert v + [] == v;
      r := Ok(Unit);
    }
  }

  /** Addresses read before those of r. */
  function Behind(v: seq<Addr>, r: Result<(seq<Addr>, seq<byte>)>): Result<(seq<Addr>, seq<byte>)> {
    match r
    case Ok(p) => Ok((v + p.0, p.1))
    case Err(e) => Err(e)
  }

  lemma NothingBefore(r: Result<(seq<Addr>, seq<byte>)>)
    ensures Behind([], r) == r
  {
    assert r.Ok? ==> [] + r.value.0 == r.value.0;
  }

  lemma OneMore(v: seq<Addr>, n: nat, b: seq<byte>)
    requires n > 0
    ensures Behind(v, DecodeEach(n, b)) ==
            match DecodeAddr(BLANK, b)
            case Ok(a) => Behind(v + [a.0], DecodeEach(n - 1, a.1))
            case Err(e) => Err(e)
  {
    hide DecodeAddr;
    match DecodeAddr(BLANK, b)
    case Err(e) =>
    case Ok(a) =>
      var more := DecodeEach(n - 1, a.1);
      assert more.Ok? ==> v + [a.0] + more.value.0 == v + ([a.0] + more.value.0);
  }

  /** The legacy form begins with a 32-bit zero, which its readers take as a marker, and padding. */
  lemma LegacyMarker()
    ensures Le(0, 4) == [0] + ([0] + Le(0, 2))
  {
    assert Le(0, 3) == [0] + Le(0, 2);
  }
}
