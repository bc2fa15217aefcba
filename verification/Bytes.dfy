/** Machine integers and the big-endian byte strings they are stored as. */
module Bytes {

  const TWO_32: nat := 0x1_0000_0000
  const TWO_64: nat := 0x1_0000_0000_0000_0000

  type byte = x: int | 0 <= x < 256
  type uint64 = x: int | 0 <= x < TWO_64
  type int64 = x: int | -0x8000_0000_0000_0000 <= x < 0x8000_0000_0000_0000

  datatype Option<+T> = None | Some(value: T)

  /** Go's `uint64(x)` on a signed value. */
  function Unsigned(x: int64): (u: uint64) {
    if x < 0 then x + TWO_64 else x
  }

  /** Go's `int64(u)` on an unsigned value. */
  function Signed(u: uint64): (x: int64) {
    if u < 0x8000_0000_0000_0000 then u else u - TWO_64
  }

  function Pow256(width: nat): (p: nat)
    ensures p > 0
  {
    if width == 0 then 1 else 256 * Pow256(width - 1)
  }

  /** The low `width` bytes of `n`, most significant first. */
  function ToBE(n: nat, width: nat): (s: seq<byte>)
    ensures |s| == width
  {
    if width == 0 then [] else ToBE(n / 256, width - 1) + [n % 256]
  }

  function FromBE(s: seq<byte>): (n: nat)
    ensures n < Pow256(|s|)
  {
    if s == [] then 0 else FromBE(s[..|s| - 1]) * 256 + s[|s| - 1]
  }

  /** Splitting off the low byte commutes with reducing modulo a power of 256. */
  lemma LowByteOfMod(n: nat, p: nat)
    requires p > 0
    ensures n % (256 * p) == (n / 256 % p) * 256 + n % 256
  {
    var q, r := n / 256 / p, n / 256 % p;
    assert n == (256 * p) * q + (256 * r + n % 256) by {
      assert n == 256 * (n / 256) + n % 256;
      assert n / 256 == p * q + r;
    }
    ModUnique(n, 256 * p, q, 256 * r + n % 256);
  }

  lemma ModUnique(n: nat, d: nat, q: nat, r: nat)
    requires r < d && n == d * q + r
    ensures n % d == r
  {
    var k := n / d - q;
    assert n == d * (n / d) + n % d;
    assert d * k == r - n % d;
    assert k >= 1 ==> d * k >= d;
    assert k <= -1 ==> d * k + d <= 0;
  }

  /** Reading back a stored integer yields it modulo the width it was stored at. */
  lemma {:induction false} FromToBE(n: nat, width: nat)
    ensures FromBE(ToBE(n, width)) == n % Pow256(width)
  {
    if width > 0 {
      FromToBE(n / 256, width - 1);
      assert ToBE(n, width)[..width - 1] == ToBE(n / 256, width - 1);
      LowByteOfMod(n, Pow256(width - 1));
    }
  }

  /** Every byte string is the encoding of the integer it denotes. */
  lemma {:induction false} ToFromBE(s: seq<byte>)
    ensures ToBE(FromBE(s), |s|) == s
  {
    if s != [] {
      ToFromBE(s[..|s| - 1]);
      assert s == s[..|s| - 1] + [s[|s| - 1]];
    }
  }

  /** The first byte is the most significant one. */
  lemma {:induction false} FirstByte(b: byte, s: seq<byte>)
    ensures FromBE([b] + s) == b * Pow256(|s|) + FromBE(s)
  {
    if s == [] {
      assert [b] + s == [b] && [b][..0] == [];
    } else {
      var init := s[..|s| - 1];
      FirstByte(b, init);
      assert ([b] + s)[..|s|] == [b] + init;
      Scale(b, Pow256(|init|));
    }
  }

  lemma Scale(b: nat, p: nat)
    ensures b * p * 256 == b * (256 * p)
  {
  }

  lemma Pow256Values()
    ensures Pow256(1) == 256 && Pow256(2) == 0x1_0000 && Pow256(4) == TWO_32 && Pow256(8) == TWO_64
  {
    assert Pow256(3) == 0x100_0000;
    assert Pow256(5) == 0x100_0000_0000;
    assert Pow256(6) == 0x1_0000_0000_0000;
    assert Pow256(7) == 0x100_0000_0000_0000;
  }
}
