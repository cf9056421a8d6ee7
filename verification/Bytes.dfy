/** Octet strings and big-endian integers, as `struct.pack` and `int.to_bytes` write them. */
module Octets {
  type Byte = n: int | 0 <= n < 256
  type Bytes = seq<Byte>

  function Pow256(k: nat): (r: nat)
    ensures r > 0
  {
    if k == 0 then 1 else 256 * Pow256(k - 1)
  }

  /** `n.to_bytes(k, "big")` */
  function Be(n: nat, k: nat): (r: Bytes)
    requires n < Pow256(k)
    ensures |r| == k
  {
    if k == 0 then [] else Be(n / 256, k - 1) + [n % 256]
  }

  /** `int.from_bytes(bs, "big")` */
  function FromBe(bs: Bytes): (r: nat)
    ensures r < Pow256(|bs|)
  {
    if bs == [] then 0 else 256 * FromBe(bs[..|bs| - 1]) + bs[|bs| - 1]
  }

  lemma {:induction false} BeInverts(n: nat, k: nat)
    requires n < Pow256(k)
    ensures FromBe(Be(n, k)) == n
  {
    if k > 0 {
      BeInverts(n / 256, k - 1);
      assert Be(n, k)[..k - 1] == Be(n / 256, k - 1);
    }
  }

  lemma {:induction false} FromBeInverts(bs: Bytes)
    ensures Be(FromBe(bs), |bs|) == bs
  {
    if bs != [] {
      FromBeInverts(bs[..|bs| - 1]);
    }
  }

  lemma {:induction false} FromBeZeros(zeros: nat, bs: Bytes)
    requires zeros <= |bs| && forall i :: 0 <= i < zeros ==> bs[i] == 0
    ensures FromBe(bs) == FromBe(bs[zeros..])
    decreases |bs|
  {
    if zeros < |bs| {
      var init := bs[..|bs| - 1];
      FromBeZeros(zeros, init);
      assert init[zeros..] == bs[zeros..][..|bs| - zeros - 1];
    } else if bs != [] {
      FromBeZeros(zeros - 1, bs[..|bs| - 1]);
      assert bs[..|bs| - 1][zeros - 1..] == [] && bs[zeros..] == [];
    }
  }

  /** The first octet is the most significant one. */
  lemma {:induction false} MostSignificantFirst(a: Byte, bs: Bytes)
    ensures FromBe([a] + bs) == a * Pow256(|bs|) + FromBe(bs)
  {
    var all := [a] + bs;
    if bs == [] {
      assert all[..0] == [];
    } else {
      var init := bs[..|bs| - 1];
      assert all[..|bs|] == [a] + init;
      MostSignificantFirst(a, init);
      assert 256 * (a * Pow256(|init|)) == a * Pow256(|bs|);
    }
  }

  /** `struct.pack(">H", n)` */
  function Be16(n: nat): (r: Bytes)
    requires n < 0x10000
    ensures |r| == 2
  {
    [n / 256, n % 256]
  }

  function FromBe16(bs: Bytes): (r: nat)
    requires |bs| >= 2
    ensures r < 0x10000
  {
    (bs[0] as int) * 256 + bs[1]
  }

  /** `struct.pack(">I", n)` */
  function Be32(n: nat): (r: Bytes)
    requires n < 0x1_0000_0000
    ensures |r| == 4
  {
    [n / 0x1000000, n / 0x10000 % 256, n / 256 % 256, n % 256]
  }

  function FromBe32(bs: Bytes): (r: nat)
    requires |bs| >= 4
    ensures r < 0x1_0000_0000
  {
    (bs[0] as int) * 0x1000000 + (bs[1] as int) * 0x10000 + (bs[2] as int) * 256 + bs[3]
  }

  lemma Be16Inverts(n: nat, rest: Bytes)
    requires n < 0x10000
    ensures FromBe16(Be16(n) + rest) == n && (Be16(n) + rest)[2..] == rest
  {
  }

  lemma Be32Inverts(n: nat, rest: Bytes)
    requires n < 0x1_0000_0000
    ensures FromBe32(Be32(n) + rest) == n && (Be32(n) + rest)[4..] == rest
  {
    assert n / 256 / 256 == n / 0x10000 && n / 0x10000 / 256 == n / 0x1000000;
    var (a, b, c, d) := (n / 0x1000000, n / 0x10000 % 256, n / 256 % 256, n % 256);
    assert n / 0x10000 == 256 * a + b && n / 256 == 256 * (n / 0x10000) + c && n == 256 * (n / 256) + d;
  }

  /** The fixed widths are the general form. */
  lemma FixedWidths(n: nat)
    ensures n < 0x10000 ==> n < Pow256(2) && Be16(n) == Be(n, 2)
    ensures n < 0x1_0000_0000 ==> n < Pow256(4) && Be32(n) == Be(n, 4)
  {
    hide Be, Pow256;
    Powers();
    if n < 0x1_0000_0000 {
      assert n / 256 / 256 == n / 0x10000 && n / 0x10000 / 256 == n / 0x1000000;
      BeStep(n, 3);
      BeStep(n / 256, 2);
    }
    if n < 0x10000 {
      TwoOctets(n);
    }
    if n < 0x1_0000_0000 {
      TwoOctets(n / 0x10000);
      assert [n / 0x1000000, n / 0x10000 % 256] + [n / 256 % 256] + [n % 256] == Be32(n);
    }
  }

  lemma Powers()
    ensures Pow256(1) == 0x100 && Pow256(2) == 0x10000 && Pow256(3) == 0x100_0000 && Pow256(4) == 0x1_0000_0000
  {
  }

  lemma BeStep(n: nat, k: nat)
    requires n < Pow256(k + 1)
    ensures n / 256 < Pow256(k) && Be(n, k + 1) == Be(n / 256, k) + [n % 256]
  {
  }

  lemma TwoOctets(n: nat)
    requires n < 0x10000
    ensures n < Pow256(2) && Be(n, 2) == [n / 256, n % 256]
  {
    Powers();
    BeStep(n, 1);
    BeStep(n / 256, 0);
  }

  lemma FromBe32Inverts(bs: Bytes)
    requires |bs| >= 4
    ensures Be32(FromBe32(bs)) == bs[..4]
  {
    var (a, b, c, d) := (bs[0] as int, bs[1] as int, bs[2] as int, bs[3] as int);
    DigitsOf(FromBe32(bs), a, b, c, d);
    assert bs[..4] == [bs[0], bs[1], bs[2], bs[3]];
  }

  lemma DigitsOf(n: nat, a: int, b: int, c: int, d: int)
    requires 0 <= a && 0 <= b < 256 && 0 <= c < 256 && 0 <= d < 256
    requires n == a * 0x1000000 + b * 0x10000 + c * 256 + d
    ensures n / 0x1000000 == a && n / 0x10000 % 256 == b && n / 256 % 256 == c && n % 256 == d
  {
    Shift(n, a * 0x10000 + b * 256 + c, d, 256);
    Shift(n, a * 256 + b, c * 256 + d, 0x10000);
    Shift(n, a, b * 0x10000 + c * 256 + d, 0x1000000);
    Shift(a * 0x10000 + b * 256 + c, a * 256 + b, c, 256);
    Shift(a * 256 + b, a, b, 256);
  }

  lemma Shift(n: int, q: int, r: int, m: int)
    requires 0 <= r < m && n == q * m + r
    ensures n / m == q && n % m == r
  {
    var d := n / m - q;
    assert n % m == n - m * (n / m);
    assert m * d == r - n % m;
    Multiple(m, d);
  }

  lemma Multiple(m: int, d: int)
    requires 0 < m
    ensures (d >= 1 ==> m * d >= m) && (d <= -1 ==> m * d <= -m)
  {
  }
}
