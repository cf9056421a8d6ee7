/**
  The OpenPGP wire format written by the fixture generators
  (rpmzig/pgp/testdata/gen_*_fixture.py), and readers of that format from RFC 4880.
  A writer returns None where the script raises.
 */
module OpenPgp {
  import opened Wrappers
  import opened Octets

  // ---------------------------------------------------------------- multiprecision integers

  /** `n.bit_length()` */
  function BitLength(n: nat): nat {
    if n == 0 then 0 else 1 + BitLength(n / 2)
  }

  /** `(n >> i) & 1` */
  predicate Bit(n: nat, i: nat) {
    if i == 0 then n % 2 == 1 else Bit(n / 2, i - 1)
  }

  function ByteLength(bits: nat): nat {
    (bits + 7) / 8
  }

  lemma {:induction false} FitsBytes(n: nat)
    ensures n < Pow256(ByteLength(BitLength(n)))
  {
    if n >= 256 {
      FitsBytes(n / 256);
      FitsMore(n / 256, n % 256);
    } else if n > 0 {
      SmallBits(n);
      assert Pow256(1) == 256 * Pow256(0);
    }
  }

  lemma FitsMore(n: nat, b: Byte)
    requires 0 < n < Pow256(ByteLength(BitLength(n)))
    ensures 256 * n + b < Pow256(ByteLength(BitLength(256 * n + b)))
  {
    hide BitLength;
    EightBits(n, b);
    assert ByteLength(BitLength(n) + 8) == 1 + ByteLength(BitLength(n));
  }

  function Pow2(k: nat): nat {
    if k == 0 then 1 else 2 * Pow2(k - 1)
  }

  lemma {:induction false} BitBound(n: nat, k: nat)
    requires n < Pow2(k)
    ensures BitLength(n) <= k
  {
    if n > 0 {
      BitBound(n / 2, k - 1);
    }
  }

  /** The bit length is the only count of bits between the powers of two around `n`. */
  lemma {:induction false} BitLengthMeans(n: nat, k: nat)
    ensures BitLength(n) == k <==> n < Pow2(k) && (k > 0 ==> Pow2(k - 1) <= n)
  {
    if n == 0 {
      if k > 0 {
        Pow2Positive(k - 1);
      }
    } else if k == 0 {
      assert Pow2(0) == 1;
    } else {
      BitLengthMeans(n / 2, k - 1);
    }
  }

  lemma {:induction false} Pow2Positive(k: nat)
    ensures Pow2(k) >= 1
  {
    if k > 0 {
      Pow2Positive(k - 1);
    }
  }

  lemma {:induction false} Pow2Grows(j: nat, k: nat)
    requires j <= k
    ensures Pow2(j) <= Pow2(k)
  {
    if j < k {
      Pow2Grows(j, k - 1);
    }
  }

  lemma SmallBits(n: nat)
    requires 0 < n < 256
    ensures 1 <= BitLength(n) <= 8
  {
    assert Pow2(8) == 256;
    BitBound(n, 8);
  }

  lemma OneBit(n: nat, c: nat)
    requires n > 0
    ensures BitLength(2 * n + c % 2) == BitLength(n) + 1
  {
    assert (2 * n + c % 2) / 2 == n;
  }

  lemma EightBits(n: nat, b: Byte)
    requires n > 0
    ensures BitLength(256 * n + b) == BitLength(n) + 8
  {
    hide BitLength;
    FourBits(16 * n + b / 16, b % 16);
    FourBits(n, b / 16);
  }

  lemma FourBits(n: nat, b: nat)
    requires n > 0 && b < 16
    ensures BitLength(16 * n + b) == BitLength(n) + 4
  {
    hide BitLength;
    OneBit(n, b / 8);
    OneBit(2 * n + b / 8, b / 4);
    OneBit(4 * n + b / 4, b / 2);
    OneBit(8 * n + b / 2, b);
    assert 16 * n + b == 2 * (8 * n + b / 2) + b % 2;
    assert 8 * n + b / 2 == 2 * (4 * n + b / 4) + b / 2 % 2;
    assert 4 * n + b / 4 == 2 * (2 * n + b / 8) + b / 4 % 2;
  }

  /** The encoders' common result: a two-octet bit count and the shortest big-endian octets. */
  function Mpi(n: nat): Option<Bytes> {
    FitsBytes(n);
    var bits := BitLength(n);
    if bits >= 0x10000 then None else Some(Be16(bits) + Be(n, ByteLength(bits)))
  }

  lemma MpiOfZero()
    ensures Mpi(0) == Some([0, 0])
  {
    assert Be16(0) + [] == [0, 0];
  }

  /**
    An integer can be encoded exactly when its bits fit two octets; the encoding is that
    count and the fewest octets that hold the number.
   */
  lemma MpiMeans(n: nat)
    ensures Mpi(n).Some? <==> n < Pow2(0xFFFF)
    ensures Mpi(n).Some? ==>
      var bs := Mpi(n).value;
      && |bs| >= 2 && FromBe(bs[2..]) == n && (n > 0 ==> |bs| > 2 && bs[2] != 0)
      && var bits := (bs[0] as int) * 256 + bs[1]; n < Pow2(bits) && (bits > 0 ==> Pow2(bits - 1) <= n)
  {
    hide BitLength, Pow2, FromBe, Be;
    var bits := BitLength(n);
    BitLengthMeans(n, bits);
    if bits >= 0x10000 {
      Pow2Grows(0xFFFF, bits - 1);
    } else {
      Pow2Grows(bits, 0xFFFF);
      FitsBytes(n);
      var octets := Be(n, ByteLength(bits));
      var bs := Mpi(n).value;
      assert bs == Be16(bits) + octets && bs[2..] == octets;
      Be16Inverts(bits, octets);
      BeInverts(n, ByteLength(bits));
      if n > 0 {
        TopOctet(n);
      }
    }
  }

  /** No leading octet of an encoded number is zero. */
  lemma TopOctet(n: nat)
    requires 0 < n < Pow256(ByteLength(BitLength(n)))
    ensures var octets := Be(n, ByteLength(BitLength(n))); octets != [] && octets[0] != 0
  {
    hide Be, FromBe;
    var k := ByteLength(BitLength(n));
    BitLengthMeans(n, BitLength(n));
    var octets := Be(n, k);
    BeInverts(n, k);
    if k > 0 && octets[0] == 0 {
      FromBeZeros(1, octets);
      assert FromBe(octets[1..]) == n;
      Pow256IsPow2(k - 1);
      Pow2Grows(8 * (k - 1), BitLength(n) - 1);
    }
  }

  lemma {:induction false} Pow256IsPow2(k: nat)
    ensures Pow256(k) == Pow2(8 * k)
  {
    if k > 0 {
      Pow256IsPow2(k - 1);
      assert Pow2(8 * k) == 2 * Pow2(8 * k - 1) == 4 * Pow2(8 * k - 2) == 8 * Pow2(8 * k - 3) == 16 * Pow2(8 * k - 4);
      assert Pow2(8 * k - 4) == 2 * Pow2(8 * k - 5) == 4 * Pow2(8 * k - 6) == 8 * Pow2(8 * k - 7)
        == 16 * Pow2(8 * k - 8);
    }
  }

  method EncodeMpi(n: nat) returns (r: Option<Bytes>)
    ensures r == Mpi(n)
  {
    MpiOfZero();
    if n == 0 {
      return Some([0, 0]);
    }
    var bits := BitLength(n);
    if bits >= 0x10000 {
      return None;
    }
    FitsBytes(n);
    return Some(Be16(bits) + Be(n, (bits + 7) / 8));
  }

  /** Section 3.2 of RFC 4880: the number and the octets that follow it. */
  function DecodeMpi(bs: Bytes): Option<(nat, Bytes)> {
    if |bs| < 2 then None
    else
      var n := ByteLength(FromBe16(bs));
      if |bs| < 2 + n then None else Some((FromBe(bs[2..2 + n]), bs[2 + n..]))
  }

  /** Reading an encoded integer gives it back and consumes exactly its octets. */
  lemma MpiRoundTrip(n: nat, rest: Bytes)
    requires Mpi(n).Some?
    ensures DecodeMpi(Mpi(n).value + rest) == Some((n, rest))
  {
    FitsBytes(n);
    var bits := BitLength(n);
    var k := ByteLength(bits);
    var all := Mpi(n).value + rest;
    assert all == Be16(bits) + (Be(n, k) + rest);
    Be16Inverts(bits, Be(n, k) + rest);
    assert all[2..2 + k] == Be(n, k) && all[2 + k..] == rest;
    BeInverts(n, k);
  }

  /** The encoder that takes octets agrees with the one that takes the integer they denote. */
  method EncodeMpiBytes(payload: Bytes) returns (r: Option<Bytes>)
    ensures r == Mpi(FromBe(payload))
  {
    MpiOfZero();
    if payload == [] {
      return Some([0, 0]);
    }
    var i := 0;
    while i < |payload| - 1 && payload[i] == 0
      invariant 0 <= i < |payload|
      invariant forall k :: 0 <= k < i ==> payload[k] == 0
    {
      i := i + 1;
    }
    FromBeZeros(i, payload);
    var n := FromBe(payload[i..]);
    var bits := BitLength(n);
    if bits == 0 {
      return Some([0, 0]);
    }
    if bits >= 0x10000 {
      return None;
    }
    FitsBytes(n);
    return Some(Be16(bits) + Be(n, (bits + 7) / 8));
  }

  lemma {:induction false} BitLengthOfBytes(p: Byte, raw: Bytes)
    requires p > 0
    ensures BitLength(FromBe([p] + raw)) == 8 * |raw| + BitLength(p)
    ensures FromBe([p] + raw) > 0
  {
    hide BitLength;
    var all := [p] + raw;
    if raw == [] {
      assert all == [p] && all[..0] == [];
    } else {
      var init := raw[..|raw| - 1];
      assert all[..|raw|] == [p] + init;
      BitLengthOfBytes(p, init);
      EightBits(FromBe([p] + init), raw[|raw| - 1]);
    }
  }

  lemma {:induction false} TopBit(n: nat, i: nat)
    ensures i >= BitLength(n) ==> !Bit(n, i)
    ensures i + 1 == BitLength(n) ==> Bit(n, i)
    decreases i
  {
    if n > 0 {
      assert BitLength(n) == 1 + BitLength(n / 2);
    }
    if i > 0 {
      TopBit(n / 2, i - 1);
    } else if BitLength(n) == 1 {
      assert n / 2 == 0;
    }
  }

  lemma ZeroBits(i: nat)
    ensures !Bit(0, i)
  {
    TopBit(0, i);
  }

  /** What the prefixed encoder writes. */
  function PrefixedMpi(prefix: Byte, raw: Bytes): Option<Bytes> {
    if prefix != 0 then Mpi(FromBe([prefix] + raw)) else Some([0, 0, 0] + raw)
  }

  /**
    The encoder for prefixed keys tightens the bit count by the bits of its first
    octet only: it agrees with the others on a nonzero prefix and overruns on zero.
   */
  method EncodeMpiWithPrefix(prefix: Byte, raw: Bytes) returns (r: Option<Bytes>)
    ensures r == PrefixedMpi(prefix, raw)
  {
    hide FromBe, Be, Bit, BitLength;
    var composite := [prefix] + raw;
    var bits := |composite| * 8;
    if prefix > 0 {
      SmallBits(prefix);
      BitLengthOfBytes(prefix, raw);
    }
    while bits > 0 && !Bit(composite[0], (bits - 1) % 8)
      invariant 0 <= bits <= |composite| * 8
      invariant prefix > 0 ==> 8 * |raw| + BitLength(prefix) <= bits
    {
      TopBit(prefix, (bits - 1) % 8);
      bits := bits - 1;
    }
    if prefix == 0 {
      assert bits == 0 by {
        if bits > 0 {
          ZeroBits((bits - 1) % 8);
        }
      }
      assert Be16(0) + composite == [0, 0, 0] + raw;
    } else {
      TopBit(prefix, (bits - 1) % 8);
      FromBeInverts(composite);
      assert ByteLength(bits) == |composite|;
    }
    if bits >= 0x10000 {
      return None;
    }
    return Some(Be16(bits) + composite);
  }

  lemma MpiLength(n: nat)
    requires Mpi(n).Some?
    ensures |Mpi(n).value| == 2 + ByteLength(FromBe16(Mpi(n).value))
  {
    FitsBytes(n);
    Be16Inverts(BitLength(n), Be(n, ByteLength(BitLength(n))));
  }

  /** It writes the integer's encoding exactly when the prefix is nonzero. */
  lemma PrefixAgreesIff(prefix: Byte, raw: Bytes)
    ensures PrefixedMpi(prefix, raw) == Mpi(FromBe([prefix] + raw)) <==> prefix != 0
    ensures prefix == 0 ==> PrefixedMpi(prefix, raw) == Some([0, 0, 0] + raw)
  {
    hide Mpi;
    var n := FromBe([prefix] + raw);
    if Mpi(n).Some? {
      MpiLength(n);
    }
    if prefix == 0 {
      assert FromBe16(PrefixedMpi(prefix, raw).value) == 0;
    }
  }
}
