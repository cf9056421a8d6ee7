/**
  Packets, subpackets, v4 signatures and keyrings as the fixture generators assemble
  them (rpmzig/pgp/testdata/gen_*_fixture.py).  Hash functions and signing primitives
  are parameters; the readers follow sections 4.2 and 5.2 of RFC 4880.
 */
module OpenPgpSignatures {
  import opened Wrappers
  import opened Octets
  import opened OpenPgp

  // ---------------------------------------------------------------- packets

  datatype Packet = Packet(tag: nat, body: Bytes)

  /** An old-format packet with a two-octet length. */
  function OldFormatPacket(tag: int, body: Bytes): Option<Bytes> {
    if 0 <= tag < 16 && |body| < 0x10000 then Some([128 + 4 * tag + 1] + Be16(|body|) + body) else None
  }

  /** Sections 4.2 and 4.2.1 of RFC 4880: the first old-format packet and what follows it. */
  function DecodePacket(bs: Bytes): Option<(Packet, Bytes)> {
    if bs == [] || bs[0] / 64 != 2 then None
    else
      var tag := bs[0] / 4 % 16;
      var kind := bs[0] % 4;
      var rest := bs[1..];
      if kind == 3 then Some((Packet(tag, rest), []))
      else
        var size := if kind == 0 then 1 else if kind == 1 then 2 else 4;
        if |rest| < size then None
        else
          var n := FromBe(rest[..size]);
          if |rest| < size + n then None
          else Some((Packet(tag, rest[size..size + n]), rest[size + n..]))
  }

  function SplitPackets(bs: Bytes): Option<seq<Packet>>
    decreases |bs|
  {
    if bs == [] then Some([])
    else
      match DecodePacket(bs)
      case None => None
      case Some((packet, rest)) =>
        match SplitPackets(rest)
        case None => None
        case Some(tail) => Some([packet] + tail)
  }

  lemma Be16IsBe(n: nat)
    requires n < 0x10000
    ensures FromBe(Be16(n)) == n
  {
    var bs := Be16(n);
    assert bs[..1] == [n / 256] && bs[..1][..0] == [];
    assert FromBe([]) == 0 && FromBe(bs[..1]) == n / 256;
  }

  lemma PacketRoundTrip(tag: int, body: Bytes, rest: Bytes)
    requires OldFormatPacket(tag, body).Some?
    ensures DecodePacket(OldFormatPacket(tag, body).value + rest) == Some((Packet(tag, body), rest))
  {
    var all := OldFormatPacket(tag, body).value + rest;
    assert all[0] == 129 + 4 * tag && all[1..] == Be16(|body|) + body + rest;
    assert all[1..][..2] == Be16(|body|);
    Be16IsBe(|body|);
    assert all[1..][2..2 + |body|] == body && all[1..][2 + |body|..] == rest;
  }

  /** Packets written one after the other split back into exactly those packets. */
  lemma {:induction false} PacketsSplit(packets: seq<Packet>, blob: Bytes)
    requires WritePackets(packets) == Some(blob)
    ensures SplitPackets(blob) == Some(packets)
    decreases |packets|
  {
    hide DecodePacket, OldFormatPacket;
    if packets != [] {
      var p, tail := packets[0], WritePackets(packets[1..]).value;
      PacketsSplit(packets[1..], tail);
      PacketRoundTrip(p.tag, p.body, tail);
      NonEmptyPacket(p.tag, p.body);
      assert p == Packet(p.tag, p.body) && packets == [p] + packets[1..];
    }
  }

  /** The first octets the fixtures' packets start with: public keys, subkeys and signatures. */
  lemma PacketOctets(body: Bytes)
    requires |body| < 0x10000
    ensures OldFormatPacket(6, body) == Some([0x99, |body| / 0x100, |body| % 0x100] + body)
    ensures OldFormatPacket(14, body) == Some([0xB9, |body| / 0x100, |body| % 0x100] + body)
    ensures OldFormatPacket(2, body) == Some([0x89, |body| / 0x100, |body| % 0x100] + body)
  {
    assert forall b: Byte :: [b] + Be16(|body|) == [b, |body| / 0x100, |body| % 0x100];
  }

  lemma NonEmptyPacket(tag: int, body: Bytes)
    requires OldFormatPacket(tag, body).Some?
    ensures OldFormatPacket(tag, body).value != []
  {
  }

  function WritePackets(packets: seq<Packet>): Option<Bytes> {
    if packets == [] then Some([])
    else
      match (OldFormatPacket(packets[0].tag, packets[0].body), WritePackets(packets[1..]))
      case (Some(a), Some(b)) => Some(a + b)
      case _ => None
  }

  // ---------------------------------------------------------------- subpackets

  datatype Subpacket = Subpacket(kind: Byte, body: Bytes)

  /** Section 5.2.3.1 of RFC 4880, the writer's three forms: one, two or five octets. */
  function SubpacketLength(n: nat): Option<Bytes> {
    if n < 192 then Some([n])
    else if n < 8384 then Some([(n - 192) / 256 + 192, (n - 192) % 256])
    else if n < 0x1_0000_0000 then Some([255] + Be32(n))
    else None
  }

  function WriteSubpacket(s: Subpacket): Option<Bytes> {
    match SubpacketLength(1 + |s.body|)
    case None => None
    case Some(length) => Some(length + [s.kind] + s.body)
  }

  /** The length and the octets after it. */
  function DecodeLength(bs: Bytes): Option<(nat, Bytes)> {
    if bs == [] then None
    else if bs[0] < 192 then Some((bs[0], bs[1..]))
    else if bs[0] < 255 then
      if |bs| < 2 then None else Some(((bs[0] as int - 192) * 256 + bs[1] + 192, bs[2..]))
    else if |bs| < 5 then None
    else Some((FromBe32(bs[1..]), bs[5..]))
  }

  function DecodeSubpackets(area: Bytes): Option<seq<Subpacket>>
    decreases |area|
  {
    if area == [] then Some([])
    else
      match DecodeLength(area)
      case None => None
      case Some((n, rest)) =>
        if n == 0 || |rest| < n then None
        else
          match DecodeSubpackets(rest[n..])
          case None => None
          case Some(tail) => Some([Subpacket(rest[0], rest[1..n])] + tail)
  }

  lemma LengthRoundTrip(n: nat, rest: Bytes)
    requires SubpacketLength(n).Some?
    ensures DecodeLength(SubpacketLength(n).value + rest) == Some((n, rest))
  {
    var all := SubpacketLength(n).value + rest;
    if n < 192 {
      assert all[1..] == rest;
    } else if n < 8384 {
      assert all[2..] == rest;
    } else {
      assert all[1..] == Be32(n) + rest;
      Be32Inverts(n, rest);
      assert all[5..] == all[1..][4..];
    }
  }

  /** Which form a length takes: as few octets as section 5.2.3.1 of RFC 4880 allows. */
  lemma LengthForm(n: nat)
    ensures SubpacketLength(n).Some? <==> n < 0x1_0000_0000
    ensures SubpacketLength(n).Some? ==>
      |SubpacketLength(n).value| == if n <= 191 then 1 else if n <= 8383 then 2 else 5
    ensures SubpacketLength(191) == Some([191]) && SubpacketLength(192) == Some([192, 0])
    ensures SubpacketLength(8383) == Some([223, 255]) && SubpacketLength(8384) == Some([255, 0, 0, 32, 192])
  {
    assert [255] + Be32(8384) == [255, 0, 0, 32, 192];
  }

  function WriteSubpackets(subs: seq<Subpacket>): Option<Bytes> {
    if subs == [] then Some([])
    else
      match (WriteSubpacket(subs[0]), WriteSubpackets(subs[1..]))
      case (Some(a), Some(b)) => Some(a + b)
      case _ => None
  }

  /** A subpacket area parses back into exactly the subpackets written. */
  lemma {:induction false} SubpacketsRoundTrip(subs: seq<Subpacket>)
    requires WriteSubpackets(subs).Some?
    ensures DecodeSubpackets(WriteSubpackets(subs).value) == Some(subs)
  {
    hide SubpacketLength, DecodeLength;
    if subs != [] {
      var s, tail := subs[0], WriteSubpackets(subs[1..]).value;
      SubpacketsRoundTrip(subs[1..]);
      var length := SubpacketLength(1 + |s.body|).value;
      var rest := [s.kind] + s.body + tail;
      LengthRoundTrip(1 + |s.body|, rest);
      assert WriteSubpackets(subs).value == length + rest;
      assert rest[1..1 + |s.body|] == s.body && rest[1 + |s.body|..] == tail;
      LengthNonEmpty(1 + |s.body|);
      assert s == Subpacket(rest[0], rest[1..1 + |s.body|]) && subs == [s] + subs[1..];
    }
  }

  lemma LengthNonEmpty(n: nat)
    requires SubpacketLength(n).Some?
    ensures SubpacketLength(n).value != []
  {
  }

  /** `issuer_fpr_subpacket`, `key_flags_subpacket` and `embedded_signature_subpacket` */
  function IssuerSubpacket(fpr: Bytes): Option<Bytes> {
    if |fpr| != 20 then None
    else
      var inner := [33, 4] + fpr;
      Some([|inner|] + inner)
  }

  function KeyFlagsSubpacket(flags: Byte): Bytes {
    var inner := [27, flags];
    [|inner|] + inner
  }

  function EmbeddedSubpacket(signature: Bytes): Option<Bytes> {
    var inner := [32] + signature;
    var n := |inner|;
    if n < 192 then Some([n] + inner)
    else if n < 8384 then
      var adj := n - 192;
      Some([adj / 256 + 192, adj % 256] + inner)
    else if n < 0x1_0000_0000 then Some([255] + Be32(n) + inner)
    else None
  }

  /** The three builders write subpackets of the general form. */
  lemma BuildersWriteSubpackets(fpr: Bytes, flags: Byte, signature: Bytes)
    ensures |fpr| == 20 ==> IssuerSubpacket(fpr) == WriteSubpacket(Subpacket(33, [4] + fpr))
    ensures Some(KeyFlagsSubpacket(flags)) == WriteSubpacket(Subpacket(27, [flags]))
    ensures EmbeddedSubpacket(signature) == WriteSubpacket(Subpacket(32, signature))
  {
    if |fpr| == 20 {
      assert [22] + ([33, 4] + fpr) == [22] + [33] + ([4] + fpr);
    }
    assert [2] + [27, flags] == [2] + [27] + [flags];
    var n := 1 + |signature|;
    assert n < 192 ==> [n] + ([32] + signature) == [n] + [32] + signature;
    assert 192 <= n < 8384 ==>
      [(n - 192) / 256 + 192, (n - 192) % 256] + ([32] + signature)
      == [(n - 192) / 256 + 192, (n - 192) % 256] + [32] + signature;
    assert 8384 <= n < 0x1_0000_0000 ==> [255] + Be32(n) + ([32] + signature) == [255] + Be32(n) + [32] + signature;
  }

  // ---------------------------------------------------------------- signatures

  datatype Material = Rsa(s: nat) | Pair(r: nat, s: nat) | Native(raw: Bytes)

  datatype Signature = Signature(
    kind: Byte, pk: Byte, hash: Byte,
    hashed: Bytes, unhashed: Bytes, hint: Bytes, material: Material)

  function HashedPrefix(kind: Byte, pk: Byte, hash: Byte, hashed: Bytes): (r: Option<Bytes>)
    ensures r.Some? ==> |r.value| == 6 + |hashed| < 6 + 0x10000
  {
    if |hashed| >= 0x10000 then None else Some([4, kind, pk, hash] + Be16(|hashed|) + hashed)
  }

  function PrefixOf(sig: Signature): Option<Bytes> {
    HashedPrefix(sig.kind, sig.pk, sig.hash, sig.hashed)
  }

  function Trailer(prefix: Bytes): Bytes
    requires |prefix| < 0x1_0000_0000
  {
    [4, 0xFF] + Be32(|prefix|)
  }

  /** Section 5.2.4 of RFC 4880: what is hashed to sign or verify `data` under a prefix. */
  function HashInput(data: Bytes, prefix: Bytes): Bytes
    requires |prefix| < 0x1_0000_0000
  {
    data + prefix + Trailer(prefix)
  }

  function WriteMaterial(m: Material): Option<Bytes> {
    match m
    case Rsa(s) => Mpi(s)
    case Pair(r, s) => (match (Mpi(r), Mpi(s)) case (Some(a), Some(b)) => Some(a + b) case _ => None)
    case Native(raw) => Some(raw)
  }

  function WriteSignature(sig: Signature): Option<Bytes> {
    match (PrefixOf(sig), WriteMaterial(sig.material))
    case (Some(prefix), Some(material)) =>
      if |sig.unhashed| >= 0x10000 then None
      else Some(prefix + Be16(|sig.unhashed|) + sig.unhashed + sig.hint + material)
    case _ => None
  }

  /** The material of an algorithm: RSA one integer, ECDSA and EdDSA two, Ed25519 64 octets. */
  function DecodeMaterial(pk: Byte, bs: Bytes): Option<Material> {
    if pk == 1 then
      match DecodeMpi(bs)
      case Some((s, rest)) => if rest == [] then Some(Rsa(s)) else None
      case None => None
    else if pk == 19 || pk == 22 then
      match DecodeMpi(bs)
      case None => None
      case Some((r, tail)) =>
        match DecodeMpi(tail)
        case Some((s, rest)) => if rest == [] then Some(Pair(r, s)) else None
        case None => None
    else if pk == 27 && |bs| == 64 then Some(Native(bs))
    else None
  }

  /** Section 5.2.3 of RFC 4880: the body of a version 4 signature packet. */
  function DecodeSignature(bs: Bytes): Option<Signature> {
    if |bs| < 6 || bs[0] != 4 then None
    else
      var n := FromBe16(bs[4..]);
      if |bs| < 8 + n then None
      else
        var rest := bs[6 + n..];
        var m := FromBe16(rest);
        if |rest| < 4 + m then None
        else
          match DecodeMaterial(bs[2], rest[4 + m..])
          case None => None
          case Some(material) =>
            Some(Signature(bs[1], bs[2], bs[3], bs[6..6 + n], rest[2..2 + m], rest[2 + m..4 + m], material))
  }

  predicate Fits(sig: Signature) {
    && |sig.hint| == 2
    && match sig.material
       case Rsa(_) => sig.pk == 1
       case Pair(_, _) => sig.pk == 19 || sig.pk == 22
       case Native(raw) => sig.pk == 27 && |raw| == 64
  }

  lemma MaterialRoundTrip(pk: Byte, m: Material)
    requires Fits(Signature(0, pk, 0, [], [], [0, 0], m)) && WriteMaterial(m).Some?
    ensures DecodeMaterial(pk, WriteMaterial(m).value) == Some(m)
  {
    hide Mpi, DecodeMpi;
    match m
    case Rsa(s) =>
      MpiRoundTrip(s, []);
      assert Mpi(s).value + [] == Mpi(s).value;
    case Pair(r, s) =>
      MpiRoundTrip(r, Mpi(s).value);
      MpiRoundTrip(s, []);
      assert Mpi(s).value + [] == Mpi(s).value;
    case Native(raw) =>
  }

  /** The octets of a signature whose material is already written. */
  function Assembled(sig: Signature, material: Bytes): Bytes
    requires |sig.hashed| < 0x10000 && |sig.unhashed| < 0x10000
  {
    [4, sig.kind, sig.pk, sig.hash] + Be16(|sig.hashed|) + sig.hashed
    + Be16(|sig.unhashed|) + sig.unhashed + sig.hint + material
  }

  lemma Assembles(sig: Signature)
    requires WriteSignature(sig).Some?
    ensures |sig.hashed| < 0x10000 && |sig.unhashed| < 0x10000 && WriteMaterial(sig.material).Some?
    ensures WriteSignature(sig).value == Assembled(sig, WriteMaterial(sig.material).value)
  {
    hide WriteMaterial, Be16;
  }

  lemma AssembledParts(sig: Signature, material: Bytes)
    requires |sig.hashed| < 0x10000 && |sig.unhashed| < 0x10000 && |sig.hint| == 2
    ensures var (bs, n, m) := (Assembled(sig, material), |sig.hashed|, |sig.unhashed|);
      && |bs| == 10 + n + m + |material| && bs[..4] == [4, sig.kind, sig.pk, sig.hash]
      && FromBe16(bs[4..]) == n && bs[6..6 + n] == sig.hashed
      && FromBe16(bs[6 + n..]) == m && bs[8 + n..8 + n + m] == sig.unhashed
      && bs[8 + n + m..10 + n + m] == sig.hint && bs[10 + n + m..] == material
  {
    hide Be16, FromBe16;
    var (bs, n, m) := (Assembled(sig, material), |sig.hashed|, |sig.unhashed|);
    var tail := sig.unhashed + sig.hint + material;
    Be16Inverts(n, sig.hashed + Be16(m) + tail);
    Be16Inverts(m, tail);
    assert bs[4..] == Be16(n) + (sig.hashed + Be16(m) + tail);
    assert bs[6 + n..] == Be16(m) + tail;
  }

  /** Where the parts of a version 4 signature stand. */
  lemma SignatureLayout(sig: Signature)
    requires |sig.hint| == 2 && WriteSignature(sig).Some?
    ensures var (bs, n, m) := (WriteSignature(sig).value, |sig.hashed|, |sig.unhashed|);
      && |bs| >= 10 + n + m && bs[..4] == [4, sig.kind, sig.pk, sig.hash]
      && (bs[4] as int) * 256 + bs[5] == n && bs[6..6 + n] == sig.hashed
      && (bs[6 + n] as int) * 256 + bs[7 + n] == m && bs[8 + n..8 + n + m] == sig.unhashed
      && bs[8 + n + m..10 + n + m] == sig.hint && Some(bs[10 + n + m..]) == WriteMaterial(sig.material)
  {
    hide WriteSignature, WriteMaterial, Assembled;
    Assembles(sig);
    AssembledParts(sig, WriteMaterial(sig.material).value);
  }

  /** What a verifier hashes for parts it has read (section 5.2.4 of RFC 4880), octet by octet. */
  function VerifierInput(data: Bytes, kind: Byte, pk: Byte, hash: Byte, hashed: Bytes): Bytes
    requires |hashed| < 0x10000
  {
    var n := |hashed|;
    data + [4, kind, pk, hash, n / 0x100, n % 0x100] + hashed
    + [4, 0xFF, 0, (n + 6) / 0x10000, (n + 6) / 0x100 % 0x100, (n + 6) % 0x100]
  }

  lemma SignersInput(data: Bytes, kind: Byte, pk: Byte, hash: Byte, hashed: Bytes)
    requires |hashed| < 0x10000
    ensures HashedPrefix(kind, pk, hash, hashed).Some?
    ensures HashInput(data, HashedPrefix(kind, pk, hash, hashed).value) == VerifierInput(data, kind, pk, hash, hashed)
  {
    var n := |hashed|;
    var prefix := HashedPrefix(kind, pk, hash, hashed).value;
    assert prefix == [4, kind, pk, hash, n / 0x100, n % 0x100] + hashed;
    assert Trailer(prefix) == [4, 0xFF, 0, (n + 6) / 0x10000, (n + 6) / 0x100 % 0x100, (n + 6) % 0x100];
  }

  /** A whole v4 signature body parses back into its parts, with nothing left over. */
  lemma SignatureRoundTrip(sig: Signature)
    requires Fits(sig) && WriteSignature(sig).Some?
    ensures DecodeSignature(WriteSignature(sig).value) == Some(sig)
  {
    hide WriteSignature, WriteMaterial, DecodeMaterial, FromBe16, Assembled;
    Assembles(sig);
    var material := WriteMaterial(sig.material).value;
    var (bs, n, m) := (Assembled(sig, material), |sig.hashed|, |sig.unhashed|);
    AssembledParts(sig, material);
    assert bs[..4][0] == 4 && bs[..4][1] == sig.kind && bs[..4][2] == sig.pk && bs[..4][3] == sig.hash;
    var rest := bs[6 + n..];
    assert rest[2..2 + m] == bs[8 + n..8 + n + m];
    assert rest[2 + m..4 + m] == bs[8 + n + m..10 + n + m];
    assert rest[4 + m..] == bs[10 + n + m..];
    MaterialRoundTrip(sig.pk, sig.material);
  }

  // ---------------------------------------------------------------- what a hash input determines

  lemma SameTail(a: Bytes, x: Bytes, b: Bytes, y: Bytes)
    requires a + x == b + y && |x| == |y|
    ensures a == b && x == y
  {
    assert a == (a + x)[..|a|] && x == (a + x)[|a|..];
    assert b == (b + y)[..|b|] && y == (b + y)[|b|..];
  }

  /** The hash input determines the data and the prefix it was made from. */
  lemma HashInputInjective(d: Bytes, p: Bytes, e: Bytes, q: Bytes)
    requires |p| < 0x1_0000_0000 && |q| < 0x1_0000_0000 && HashInput(d, p) == HashInput(e, q)
    ensures d == e && p == q
  {
    SameTail(d + p, Trailer(p), e + q, Trailer(q));
    Be32Inverts(|p|, []);
    Be32Inverts(|q|, []);
    assert Trailer(p)[2..] == Be32(|p|) + [] && Trailer(q)[2..] == Be32(|q|) + [];
    SameTail(d, p, e, q);
  }

  lemma PrefixInjective(a: Signature, b: Signature)
    requires PrefixOf(a).Some? && PrefixOf(a) == PrefixOf(b)
    ensures a.kind == b.kind && a.pk == b.pk && a.hash == b.hash && a.hashed == b.hashed
  {
    var (p, q) := (PrefixOf(a).value, PrefixOf(b).value);
    assert p[1] == a.kind && q[1] == b.kind && p[2] == a.pk && q[2] == b.pk && p[3] == a.hash && q[3] == b.hash;
    assert p[6..] == a.hashed && q[6..] == b.hashed;
  }

  function Concat(chunks: seq<Bytes>): Bytes {
    if chunks == [] then [] else chunks[0] + Concat(chunks[1..])
  }

  /** The hash input of a signature over `chunks`, or None where the script raises. */
  function SignedInput(sig: Signature, chunks: seq<Bytes>): Option<Bytes> {
    match PrefixOf(sig)
    case None => None
    case Some(prefix) => Some(HashInput(Concat(chunks), prefix))
  }

  /** Equal hash inputs were made from the same type, algorithms, hashed area and data. */
  lemma InputDeterminesSignature(a: Signature, x: seq<Bytes>, b: Signature, y: seq<Bytes>)
    requires SignedInput(a, x).Some? && SignedInput(a, x) == SignedInput(b, y)
    ensures a.kind == b.kind && a.pk == b.pk && a.hash == b.hash && a.hashed == b.hashed
    ensures Concat(x) == Concat(y)
  {
    HashInputInjective(Concat(x), PrefixOf(a).value, Concat(y), PrefixOf(b).value);
    PrefixInjective(a, b);
  }

  /** `framed_for_hash` */
  function Framed(body: Bytes): Option<Bytes> {
    if |body| < 0x10000 then Some([0x99] + Be16(|body|) + body) else None
  }

  /** The framed body and what follows it. */
  function DecodeFramed(bs: Bytes): Option<(Bytes, Bytes)> {
    if |bs| < 3 || bs[0] != 0x99 then None
    else
      var n := FromBe16(bs[1..]);
      if |bs| < 3 + n then None else Some((bs[3..3 + n], bs[3 + n..]))
  }

  lemma FramedRoundTrip(body: Bytes, rest: Bytes)
    requires Framed(body).Some?
    ensures DecodeFramed(Framed(body).value + rest) == Some((body, rest))
  {
    var all := Framed(body).value + rest;
    assert all[1..] == Be16(|body|) + (body + rest);
    Be16Inverts(|body|, body + rest);
    assert all[3..3 + |body|] == body && all[3 + |body|..] == rest;
  }

  lemma FramedPairInjective(p: Bytes, s: Bytes, q: Bytes, t: Bytes)
    requires Framed(p).Some? && Framed(s).Some? && Framed(q).Some? && Framed(t).Some?
    requires Framed(p).value + Framed(s).value == Framed(q).value + Framed(t).value
    ensures p == q && s == t
  {
    hide Framed, DecodeFramed;
    FramedRoundTrip(p, Framed(s).value);
    FramedRoundTrip(q, Framed(t).value);
    FramedRoundTrip(s, []);
    FramedRoundTrip(t, []);
    assert Framed(s).value + [] == Framed(s).value;
  }

  /** What a subkey-binding signature or its back-signature hashes before the prefix. */
  function BindingChunks(primary: Bytes, subkey: Bytes): Option<seq<Bytes>> {
    match (Framed(primary), Framed(subkey))
    case (Some(a), Some(b)) => Some([a, b])
    case _ => None
  }

  /** Binding inputs determine both key bodies; no detached input is a binding input. */
  lemma BindingInputs(a: Signature, p: Bytes, s: Bytes, b: Signature, q: Bytes, t: Bytes, data: Bytes)
    requires BindingChunks(p, s).Some? && SignedInput(a, BindingChunks(p, s).value).Some?
    requires BindingChunks(q, t).Some?
    ensures SignedInput(a, BindingChunks(p, s).value) == SignedInput(b, BindingChunks(q, t).value) ==>
      p == q && s == t
    ensures (a.kind == 0x18 || a.kind == 0x19) && b.kind == 0x00 ==>
      SignedInput(a, BindingChunks(p, s).value) != SignedInput(b, [data])
  {
    hide SignedInput, Framed;
    var (x, y) := (BindingChunks(p, s).value, BindingChunks(q, t).value);
    PairConcat(x);
    PairConcat(y);
    if SignedInput(a, x) == SignedInput(b, y) {
      InputDeterminesSignature(a, x, b, y);
      FramedPairInjective(p, s, q, t);
    }
    if SignedInput(a, x) == SignedInput(b, [data]) {
      InputDeterminesSignature(a, x, b, [data]);
    }
  }

  lemma PairConcat(chunks: seq<Bytes>)
    requires |chunks| == 2
    ensures Concat(chunks) == chunks[0] + chunks[1]
  {
    assert Concat(chunks[1..]) == chunks[1] + Concat(chunks[1..][1..]);
    assert chunks[1] + [] == chunks[1];
  }
}
