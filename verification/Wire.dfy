/** Fixed-width little-endian numbers in byte strings. */
module Wire {
  import opened Prelude
  import opened Multiples

  /** 256 to the k: how many numbers k bytes can tell apart. */
  function Pow256(k: nat): (p: nat)
    ensures p >= 1
  {
    if k == 0 then 1 else 256 * Pow256(k - 1)
  }

  /** The low k bytes of n, least significant first. */
  function Le(n: nat, k: nat): (b: seq<byte>)
    ensures |b| == k
    decreases k
  {
    if k == 0 then [] else [(n % 256) as byte] + Le(n / 256, k - 1)
  }

  function Zeros(n: nat): (z: seq<byte>)
    ensures |z| == n
  {
    seq(n, _ => 0)
  }

  function FromLe(b: seq<byte>): (n: nat) {
    if b == [] then 0 else b[0] as nat + 256 * FromLe(b[1..])
  }

  lemma {:induction false} LeRoundTrip(n: nat, k: nat)
    requires n < Pow256(k)
    ensures FromLe(Le(n, k)) == n
    decreases k
  {
    if k > 0 {
      LeRoundTrip(n / 256, k - 1);
      assert Le(n, k)[1..] == Le(n / 256, k - 1);
    }
  }

  /** Byte i is the i-th digit of n to the base 256. */
  lemma {:induction false} LeDigit(n: nat, k: nat, i: nat)
    requires i < k
    ensures Le(n, k)[i] as nat == n / Pow256(i) % 256
    decreases k
  {
    if i > 0 {
      LeDigit(n / 256, k - 1, i - 1);
      assert Le(n, k)[1..] == Le(n / 256, k - 1);
      QuotientOfQuotient(n, Pow256(i - 1));
    }
  }

  lemma QuotientOfQuotient(n: nat, p: nat)
    requires p > 0
    ensures n / 256 / p == n / (256 * p)
  {
    var q := n / 256 / p;
    assert n == 256 * (n / 256) + n % 256 && n / 256 == p * q + n / 256 % p;
    assert 256 * (n / 256) == 256 * p * q + 256 * (n / 256 % p);
    var r := 256 * (n / 256 % p) + n % 256;
    assert 256 * (n / 256 % p) <= 256 * (p - 1);
    assert n == 256 * p * q + r && 0 <= r < 256 * p;
    QuotientIsUnique(n, 256 * p, q, r);
  }

  /** Every byte string is the number it is read as. */
  lemma {:induction false} FromLeRoundTrip(b: seq<byte>)
    ensures FromLe(b) < Pow256(|b|) && Le(FromLe(b), |b|) == b
  {
    if b != [] {
      FromLeRoundTrip(b[1..]);
      assert FromLe(b) == b[0] as nat + 256 * FromLe(b[1..]);
      assert FromLe(b) % 256 == b[0] as nat && FromLe(b) / 256 == FromLe(b[1..]);
      assert b == [b[0]] + b[1..];
    }
  }

  lemma Widths()
    ensures Pow256(2) == 0x1_0000 && Pow256(4) == 0x1_0000_0000 && Pow256(8) == 0x1_0000_0000_0000_0000
  {
    assert Pow256(1) == 256 && Pow256(3) == 256 * Pow256(2) && Pow256(5) == 256 * Pow256(4);
    assert Pow256(7) == 256 * Pow256(6) && Pow256(6) == 256 * Pow256(5);
  }
}
