/**
  Key bodies, the signing routines and the assembly of a keyring
  (rpmzig/pgp/testdata/gen_*_fixture.py), and what a verifier recovers from it.
 */
module OpenPgpKeyring {
  import opened Wrappers
  import opened Octets
  import opened OpenPgp
  import opened OpenPgpSignatures

  type Hash = Bytes -> Bytes

  // ---------------------------------------------------------------- public keys

  datatype Key = RsaKey(n: nat, e: nat) | CurveKey(pk: Byte, oid: Bytes, q: nat) | NativeKey(raw: Bytes)

  function Algorithm(key: Key): Byte {
    match key case RsaKey(_, _) => 1 case CurveKey(pk, _, _) => pk case NativeKey(_) => 27
  }

  function WriteKeyMaterial(key: Key): Option<Bytes> {
    match key
    case RsaKey(n, e) => WriteMaterial(Pair(n, e))
    case CurveKey(_, oid, q) =>
      if |oid| >= 256 then None
      else (match Mpi(q) case Some(m) => Some([|oid|] + oid + m) case None => None)
    case NativeKey(raw) => Some(raw)
  }

  /** A version 4 public-key body, section 5.5.2 of RFC 4880. */
  function WriteKey(created: nat, key: Key): Option<Bytes> {
    if created >= 0x1_0000_0000 then None
    else
      match WriteKeyMaterial(key)
      case None => None
      case Some(m) => Some([4] + Be32(created) + [Algorithm(key)] + m)
  }

  function DecodeKeyMaterial(pk: Byte, bs: Bytes): Option<Key> {
    if pk == 1 then
      match DecodeMaterial(19, bs)
      case Some(Pair(n, e)) => Some(RsaKey(n, e))
      case _ => None
    else if pk == 19 || pk == 22 then
      if bs == [] || |bs| <= bs[0] then None
      else
        var end := bs[0] as int + 1;
        match DecodeMpi(bs[end..])
        case Some((q, rest)) => if rest == [] then Some(CurveKey(pk, bs[1..end], q)) else None
        case None => None
    else if pk == 27 && |bs| == 32 then Some(NativeKey(bs))
    else None
  }

  function DecodeKey(bs: Bytes): Option<(nat, Key)> {
    if |bs| < 6 || bs[0] != 4 then None
    else
      match DecodeKeyMaterial(bs[5], bs[6..])
      case None => None
      case Some(key) => Some((FromBe32(bs[1..]), key))
  }

  predicate KeyFits(key: Key) {
    match key
    case RsaKey(_, _) => true
    case CurveKey(pk, _, _) => pk == 19 || pk == 22
    case NativeKey(raw) => |raw| == 32
  }

  lemma KeyMaterialRoundTrip(key: Key)
    requires KeyFits(key) && WriteKeyMaterial(key).Some?
    ensures DecodeKeyMaterial(Algorithm(key), WriteKeyMaterial(key).value) == Some(key)
  {
    hide DecodeMaterial, WriteMaterial, DecodeMpi, Mpi;
    match key
    case RsaKey(n, e) => MaterialRoundTrip(19, Pair(n, e));
    case CurveKey(pk, oid, q) =>
      var bs := WriteKeyMaterial(key).value;
      assert bs[1..1 + |oid|] == oid && bs[1 + |oid|..] == Mpi(q).value + [];
      MpiRoundTrip(q, []);
    case NativeKey(raw) =>
  }

  /** A key body parses back into its creation time and key, with nothing left over. */
  lemma KeyRoundTrip(created: nat, key: Key)
    requires KeyFits(key) && WriteKey(created, key).Some?
    ensures DecodeKey(WriteKey(created, key).value) == Some((created, key))
  {
    hide DecodeKeyMaterial, WriteKeyMaterial;
    var m := WriteKeyMaterial(key).value;
    var bs := WriteKey(created, key).value;
    assert bs[1..] == Be32(created) + ([Algorithm(key)] + m);
    Be32Inverts(created, [Algorithm(key)] + m);
    assert bs[5] == Algorithm(key) && bs[6..] == m;
    KeyMaterialRoundTrip(key);
  }

  /** Where the parts of a key body stand: the algorithm decides what follows the creation time. */
  lemma KeyLayout(created: nat, key: Key)
    requires WriteKey(created, key).Some?
    ensures var bs := WriteKey(created, key).value;
      && |bs| >= 6 && bs[0] == 4 && FromBe32(bs[1..]) == created
      && match key
         case RsaKey(n, e) =>
           && bs[5] == 1
           && (match DecodeMpi(bs[6..])
               case None => false
               case Some((m, rest)) => m == n && DecodeMpi(rest) == Some((e, [])))
         case CurveKey(pk, oid, q) =>
           && bs[5] == pk && |bs| > 7 + |oid| && bs[6] == |oid| && bs[7..7 + |oid|] == oid
           && DecodeMpi(bs[7 + |oid|..]) == Some((q, []))
         case NativeKey(raw) => bs[5] == 27 && bs[6..] == raw
  {
    hide WriteKeyMaterial, DecodeMpi, Mpi;
    var m := WriteKeyMaterial(key).value;
    var bs := WriteKey(created, key).value;
    assert bs[1..] == Be32(created) + ([Algorithm(key)] + m);
    Be32Inverts(created, [Algorithm(key)] + m);
    assert bs[5] == Algorithm(key) && bs[6..] == m;
    KeyMaterialLayout(key);
    if key.CurveKey? {
      assert bs[7..7 + |key.oid|] == m[1..1 + |key.oid|] && bs[7 + |key.oid|..] == m[1 + |key.oid|..];
    }
  }

  lemma KeyMaterialLayout(key: Key)
    requires WriteKeyMaterial(key).Some?
    ensures var m := WriteKeyMaterial(key).value;
      match key
      case RsaKey(n, e) =>
        (match DecodeMpi(m) case None => false case Some((k, rest)) => k == n && DecodeMpi(rest) == Some((e, [])))
      case CurveKey(_, oid, q) =>
        |m| > 1 + |oid| && m[0] == |oid| && m[1..1 + |oid|] == oid && DecodeMpi(m[1 + |oid|..]) == Some((q, []))
      case NativeKey(raw) => m == raw
  {
    hide DecodeMpi, Mpi;
    match key
    case RsaKey(n, e) =>
      MpiRoundTrip(n, Mpi(e).value);
      MpiRoundTrip(e, []);
      assert Mpi(e).value + [] == Mpi(e).value;
    case CurveKey(_, oid, q) =>
      var m := WriteKeyMaterial(key).value;
      MpiRoundTrip(q, []);
      MpiMeans(q);
      assert m[1..1 + |oid|] == oid && m[1 + |oid|..] == Mpi(q).value + [];
    case NativeKey(_) =>
  }

  /** The integer of an uncompressed point: 0x04 and two coordinates of `len` octets. */
  function PointInteger(len: nat, x: nat, y: nat): nat
    requires x < Pow256(len) && y < Pow256(len)
  {
    FromBe([4] + Be(x, len) + Be(y, len))
  }

  /** The octets of the decoded integer are the point again, so both coordinates are recovered. */
  lemma PointRoundTrip(len: nat, x: nat, y: nat)
    requires x < Pow256(len) && y < Pow256(len)
    ensures var q := PointInteger(len, x, y);
      && ByteLength(BitLength(q)) == 1 + 2 * len
      && q < Pow256(1 + 2 * len)
      && Be(q, 1 + 2 * len) == [4] + Be(x, len) + Be(y, len)
      && FromBe(Be(q, 1 + 2 * len)[1..1 + len]) == x && FromBe(Be(q, 1 + 2 * len)[1 + len..]) == y
  {
    hide BitLength, FromBe, Be;
    var raw := Be(x, len) + Be(y, len);
    var all := [4] + Be(x, len) + Be(y, len);
    assert all == [4] + raw;
    BitLengthOfBytes(4, raw);
    SmallBits(4);
    FromBeInverts(all);
    assert all[1..1 + len] == Be(x, len) && all[1 + len..] == Be(y, len);
    BeInverts(x, len);
    BeInverts(y, len);
  }

  /** `gen_pubkey_body`: a curve's key with a point of `len`-octet coordinates. */
  function EcKeyBody(oid: Bytes, len: nat, x: nat, y: nat): Option<Bytes>
    requires x < Pow256(len) && y < Pow256(len)
  {
    WriteKey(0x6500_0000, CurveKey(19, oid, PointInteger(len, x, y)))
  }

  lemma CurveBody(pk: Byte, oid: Bytes, q: nat, m: Bytes)
    requires |oid| < 256 && Mpi(q) == Some(m)
    ensures WriteKey(0x6500_0000, CurveKey(pk, oid, q)) == Some([4, 0x65, 0, 0, 0, pk, |oid|] + oid + m)
  {
    hide Mpi;
    assert Be32(0x6500_0000) == [0x65, 0, 0, 0];
    assert [4] + [0x65, 0, 0, 0] + [pk] + ([|oid|] + oid + m) == [4, 0x65, 0, 0, 0, pk, |oid|] + oid + m;
  }

  /** An integer given by octets, the first of them nonzero, is written as those octets. */
  lemma MpiOfOctets(p: Byte, raw: Bytes)
    requires p > 0 && 8 * |raw| + BitLength(p) < 0x10000
    ensures Mpi(FromBe([p] + raw))
      == Some([(8 * |raw| + BitLength(p)) / 256, (8 * |raw| + BitLength(p)) % 256] + ([p] + raw))
  {
    hide Be, FromBe, BitLength, Pow256, Mpi;
    var n, bits := FromBe([p] + raw), 8 * |raw| + BitLength(p);
    BitLengthOfBytes(p, raw);
    SmallBits(p);
    FromBeInverts([p] + raw);
    assert (bits + 7) / 8 == |[p] + raw|;
    MpiIs(n, bits, [p] + raw);
  }

  lemma MpiIs(n: nat, bits: nat, octets: Bytes)
    requires BitLength(n) == bits < 0x10000 && |octets| == (bits + 7) / 8
    requires n < Pow256(|octets|) && Be(n, |octets|) == octets
    ensures Mpi(n) == Some([bits / 256, bits % 256] + octets)
  {
    hide Be, BitLength, Pow256;
  }

  /** Its octets: the bit count of the point is the one its first octet 4 gives. */
  lemma EcKeyOctets(oid: Bytes, len: nat, x: nat, y: nat)
    requires x < Pow256(len) && y < Pow256(len) && |oid| < 256 && 16 * len + 3 < 0x10000
    ensures EcKeyBody(oid, len, x, y)
      == Some([4, 0x65, 0, 0, 0, 19, |oid|] + oid
              + ([(16 * len + 3) / 256, (16 * len + 3) % 256, 4] + Be(x, len) + Be(y, len)))
  {
    hide Be, FromBe, BitLength, Pow256, Mpi, WriteKey;
    var raw := Be(x, len) + Be(y, len);
    var n := 16 * len + 3;
    assert [4] + Be(x, len) + Be(y, len) == [4] + raw;
    BitsOfPointForm();
    MpiOfOctets(4, raw);
    assert [n / 256, n % 256] + ([4] + raw) == [n / 256, n % 256, 4] + Be(x, len) + Be(y, len);
    CurveBody(19, oid, PointInteger(len, x, y), [n / 256, n % 256, 4] + Be(x, len) + Be(y, len));
  }

  lemma BitsOfPointForm()
    ensures BitLength(4) == 3 && BitLength(0x40) == 7
  {
    BitLengthMeans(4, 3);
    BitLengthMeans(0x40, 7);
  }

  /** The legacy Edwards key: 263 bits, 0x40 and the 32 octets, and the same body the integer would give. */
  lemma EdKeyOctets(oid: Bytes, raw: Bytes)
    requires |raw| == 32 && |oid| < 256
    ensures PrefixedMpi(0x40, raw) == Some([1, 7, 0x40] + raw)
    ensures WriteKey(0x6500_0000, CurveKey(22, oid, FromBe([0x40] + raw)))
      == Some([4, 0x65, 0, 0, 0, 22, |oid|] + oid + ([1, 7, 0x40] + raw))
  {
    hide FromBe, BitLength, Mpi, WriteKey;
    BitsOfPointForm();
    MpiOfOctets(0x40, raw);
    assert [1, 7] + ([0x40] + raw) == [1, 7, 0x40] + raw;
    CurveBody(22, oid, FromBe([0x40] + raw), [1, 7, 0x40] + raw);
  }

  // ---------------------------------------------------------------- signing

  /** A hash object: it digests everything it was fed. */
  class Hasher {
    var fed: Bytes

    constructor ()
      ensures fed == []
    {
      fed := [];
    }

    method Update(chunk: Bytes)
      modifies this
      ensures fed == old(fed) + chunk
    {
      fed := fed + chunk;
    }
  }

  function Hint(digest: Bytes): Bytes {
    digest[..if |digest| < 2 then |digest| else 2]
  }

  /** The signature over `chunks`, given how the material is made from the digest. */
  function Signed(kind: Byte, pk: Byte, hash: Byte, hashed: Bytes, unhashed: Bytes, digest: Bytes, m: Material)
    : Signature
  {
    Signature(kind, pk, hash, hashed, unhashed, Hint(digest), m)
  }

  function DigestOf(kind: Byte, pk: Byte, hash: Byte, hashed: Bytes, chunks: seq<Bytes>, sha: Hash): Option<Bytes> {
    match HashedPrefix(kind, pk, hash, hashed)
    case None => None
    case Some(prefix) => Some(sha(HashInput(Concat(chunks), prefix)))
  }

  /** What `sign_v4` returns. */
  function RsaSignature(kind: Byte, hashed: Bytes, unhashed: Bytes, chunks: seq<Bytes>, sha: Hash, signer: Bytes -> nat)
    : Option<Bytes>
  {
    match DigestOf(kind, 1, 8, hashed, chunks, sha)
    case None => None
    case Some(digest) => WriteSignature(Signed(kind, 1, 8, hashed, unhashed, digest, Rsa(signer(digest))))
  }

  lemma {:induction false} ConcatLast(chunks: seq<Bytes>, k: nat)
    requires k < |chunks|
    ensures Concat(chunks[..k + 1]) == Concat(chunks[..k]) + chunks[k]
    decreases k
  {
    if k == 0 {
      assert chunks[..1] == [chunks[0]] && chunks[..1][1..] == [];
      assert Concat([]) == [] && Concat(chunks[..1]) == chunks[0] + Concat(chunks[..1][1..]);
    } else {
      assert chunks[..k + 1][1..] == chunks[1..][..k] && chunks[..k][1..] == chunks[1..][..k - 1];
      ConcatLast(chunks[1..], k - 1);
    }
  }

  /** Feeds the chunks, the hashed prefix and the trailer, and digests. */
  method DigestChunks(chunks: seq<Bytes>, prefix: Bytes, sha: Hash) returns (digest: Bytes)
    requires |prefix| < 0x1_0000_0000
    ensures digest == sha(HashInput(Concat(chunks), prefix))
  {
    var h := new Hasher();
    for k := 0 to |chunks|
      invariant fresh(h) && h.fed == Concat(chunks[..k])
    {
      ConcatLast(chunks, k);
      h.Update(chunks[k]);
    }
    assert chunks[..|chunks|] == chunks;
    h.Update(prefix);
    h.Update(Trailer(prefix));
    digest := sha(h.fed);
  }

  method SignV4(signer: Bytes -> nat, kind: Byte, hashed: Bytes, unhashed: Bytes, inputs: seq<Bytes>, sha: Hash)
    returns (r: Option<Bytes>)
    ensures r == RsaSignature(kind, hashed, unhashed, inputs, sha, signer)
  {
    if |hashed| >= 0x10000 {
      return None;
    }
    var prefix := [4, kind, 1, 8] + Be16(|hashed|) + hashed;
    var digest := DigestChunks(inputs, prefix, sha);
    var mpi := EncodeMpi(signer(digest));
    if |unhashed| >= 0x10000 || mpi == None {
      return None;
    }
    return Some(prefix + Be16(|unhashed|) + unhashed + Hint(digest) + mpi.value);
  }

  /** The hashed area of a detached signature, or None where its length fits no octet. */
  function IssuerArea(fpr: Bytes): (r: Option<Bytes>)
    ensures |fpr| == 20 ==> r == IssuerSubpacket(fpr)
  {
    var inner := [33, 4] + fpr;
    if |inner| < 256 then Some([|inner|] + inner) else None
  }

  /** `fpr[-8:]` in a subpacket of its own. */
  function IssuerKeyId(fpr: Bytes): Bytes {
    var inner := [16] + LastEight(fpr);
    [|inner|] + inner
  }

  function LastEight(fpr: Bytes): (r: Bytes)
    ensures |r| <= 8
  {
    if |fpr| < 8 then fpr else fpr[|fpr| - 8..]
  }

  /** What a detached elliptic-curve signature should be, given its hashed area and material. */
  function DetachedSignature(pk: Byte, hash: Byte, area: Bytes, fpr: Bytes, digest: Bytes, m: Material): Option<Bytes> {
    WriteSignature(Signed(0, pk, hash, area, IssuerKeyId(fpr), digest, m))
  }

  /** The octets of a detached signature, given those of its material. */
  lemma DetachedOctets(pk: Byte, hash: Byte, area: Bytes, fpr: Bytes, digest: Bytes, m: Material)
    requires |area| < 0x10000
    ensures WriteMaterial(m) == None ==> DetachedSignature(pk, hash, area, fpr, digest, m) == None
    ensures WriteMaterial(m).Some? ==>
      DetachedSignature(pk, hash, area, fpr, digest, m)
      == Some(HashedPrefix(0, pk, hash, area).value
              + Be16(|IssuerKeyId(fpr)|) + IssuerKeyId(fpr) + Hint(digest) + WriteMaterial(m).value)
  {
    hide WriteMaterial, Be16;
  }

  /** What `gen_detached_sig` returns: two integers over the digest of the data. */
  function EcSignature(hash: Byte, fpr: Bytes, data: Bytes, sha: Hash, signer: Bytes -> (nat, nat)): Option<Bytes> {
    match IssuerArea(fpr)
    case None => None
    case Some(area) =>
      match DigestOf(0, 19, hash, area, [data], sha)
      case None => None
      case Some(digest) => DetachedSignature(19, hash, area, fpr, digest, Pair(signer(digest).0, signer(digest).1))
  }

  /** `gen_detached_sig`: two integers. */
  method GenDetachedSig(hash: Byte, fpr: Bytes, data: Bytes, sha: Hash, signer: Bytes -> (nat, nat))
    returns (r: Option<Bytes>)
    ensures r == EcSignature(hash, fpr, data, sha, signer)
  {
    hide Mpi, HashInput, Concat, DetachedSignature, Hint, Be16;
    var inner := [33, 4] + fpr;
    if |inner| >= 256 {
      return None;
    }
    var hashedArea := [|inner|] + inner;
    var keyId := [16] + LastEight(fpr);
    var unhashedArea := [|keyId|] + keyId;
    var prefix := [4, 0, 19, hash] + Be16(|hashedArea|) + hashedArea;
    var digest := DigestChunks([data], prefix, sha);
    var (x, y) := signer(digest);
    DetachedOctets(19, hash, hashedArea, fpr, digest, Pair(x, y));
    var a := EncodeMpi(x);
    var b := EncodeMpi(y);
    if a == None || b == None {
      return None;
    }
    var material := a.value + b.value;
    return Some(prefix + Be16(|unhashedArea|) + unhashedArea + Hint(digest) + material);
  }

  /** What `build_sig_body` returns: the legacy form writes two integers, the native form 64 octets. */
  function EdSignature(pk: Byte, hash: Byte, fpr: Bytes, data: Bytes, sha: Hash, signer: Bytes -> Bytes)
    : Option<Bytes>
  {
    if IssuerArea(fpr) == None || (hash != 8 && hash != 10) then None
    else
      var area := IssuerArea(fpr).value;
      match DigestOf(0, pk, hash, area, [data], sha)
      case None => None
      case Some(digest) =>
        var raw := signer(digest);
        if |raw| != 64 then None
        else if pk == 22 || pk == 27 then DetachedSignature(pk, hash, area, fpr, digest, EdParts(pk, raw))
        else None
  }

  method BuildSigBody(pk: Byte, hash: Byte, fpr: Bytes, data: Bytes, sha: Hash, signer: Bytes -> Bytes)
    returns (r: Option<Bytes>)
    ensures r == EdSignature(pk, hash, fpr, data, sha, signer)
  {
    hide EdParts, HashInput, Concat, DetachedSignature, Hint, Be16, WriteMaterial;
    var inner := [33, 4] + fpr;
    if |inner| >= 256 {
      return None;
    }
    var hashedArea := [|inner|] + inner;
    var keyId := [16] + LastEight(fpr);
    var unhashedArea := [|keyId|] + keyId;
    var prefix := [4, 0, pk, hash] + Be16(|hashedArea|) + hashedArea;
    if hash != 8 && hash != 10 {
      return None;
    }
    var digest := DigestChunks([data], prefix, sha);
    var raw := signer(digest);
    if |raw| != 64 {
      return None;
    }
    DetachedOctets(pk, hash, hashedArea, fpr, digest, EdParts(pk, raw));
    var material := EdMaterial(pk, raw);
    if material == None {
      return None;
    }
    return Some(prefix + Be16(|unhashedArea|) + unhashedArea + Hint(digest) + material.value);
  }

  function EdParts(pk: Byte, raw: Bytes): Material
    requires |raw| == 64
  {
    if pk == 22 then Pair(FromBe(raw[..32]), FromBe(raw[32..])) else Native(raw)
  }

  method EdMaterial(pk: Byte, raw: Bytes) returns (r: Option<Bytes>)
    requires |raw| == 64
    ensures r == if pk == 22 || pk == 27 then WriteMaterial(EdParts(pk, raw)) else None
  {
    if pk == 22 {
      var a := EncodeMpiBytes(raw[..32]);
      var b := EncodeMpiBytes(raw[32..]);
      if a == None || b == None {
        return None;
      }
      return Some(a.value + b.value);
    }
    return if pk == 27 then Some(raw) else None;
  }

  // ---------------------------------------------------------------- verifying

  /** Some octets and a digest that starts with them. */
  predicate Hints(hint: Bytes, digest: Bytes) {
    |hint| == 2 && |digest| >= 2 && hint[0] == digest[0] && hint[1] == digest[1]
  }

  /** The signer's material and the hint match the hash input rebuilt from the parsed signature. */
  predicate Verifies(sig: Signature, data: Bytes, sha: Hash, signer: Bytes -> nat) {
    && |sig.hashed| < 0x10000
    && var digest := sha(VerifierInput(data, sig.kind, sig.pk, sig.hash, sig.hashed));
    Hints(sig.hint, digest) && sig.material == Rsa(signer(digest))
  }

  /** A signature can be written exactly when both areas and the signer's integer fit their two-octet counts. */
  lemma SignatureWritten(
    kind: Byte, hashed: Bytes, unhashed: Bytes, chunks: seq<Bytes>, sha: Hash, signer: Bytes -> nat)
    ensures RsaSignature(kind, hashed, unhashed, chunks, sha, signer).Some? <==>
      && |hashed| < 0x10000 && |unhashed| < 0x10000
      && signer(sha(VerifierInput(Concat(chunks), kind, 1, 8, hashed))) < Pow2(0xFFFF)
  {
    hide Pow2, HashInput, VerifierInput, Mpi, Be16;
    if |hashed| < 0x10000 {
      SignersInput(Concat(chunks), kind, 1, 8, hashed);
      MpiMeans(signer(sha(VerifierInput(Concat(chunks), kind, 1, 8, hashed))));
    }
  }

  /** A parsed `sign_v4` signature verifies against the chunks that were signed. */
  lemma SignedVerifies(kind: Byte, hashed: Bytes, unhashed: Bytes, chunks: seq<Bytes>, sha: Hash, signer: Bytes -> nat)
    requires RsaSignature(kind, hashed, unhashed, chunks, sha, signer).Some?
    requires forall bs :: |sha(bs)| >= 2
    ensures var parsed := DecodeSignature(RsaSignature(kind, hashed, unhashed, chunks, sha, signer).value);
      && parsed.Some? && Verifies(parsed.value, Concat(chunks), sha, signer)
      && parsed.value.kind == kind && parsed.value.pk == 1 && parsed.value.hash == 8
      && parsed.value.hashed == hashed && parsed.value.unhashed == unhashed
  {
    hide WriteSignature, DecodeSignature, HashInput, VerifierInput, Concat, Trailer;
    var digest := DigestOf(kind, 1, 8, hashed, chunks, sha).value;
    var sig := Signed(kind, 1, 8, hashed, unhashed, digest, Rsa(signer(digest)));
    SignatureRoundTrip(sig);
    SignersInput(Concat(chunks), kind, 1, 8, hashed);
  }

  // ---------------------------------------------------------------- detached curve signatures

  /**
    The area with the fingerprint reads as that one subpacket exactly where its single
    length octet means one octet, up to 191; longer fingerprints make it unreadable.
   */
  lemma IssuerAreaReads(fpr: Bytes)
    ensures IssuerArea(fpr).Some? <==> |fpr| <= 253
    ensures IssuerArea(fpr).Some? ==>
      DecodeSubpackets(IssuerArea(fpr).value) == if |fpr| <= 189 then Some([Subpacket(33, [4] + fpr)]) else None
  {
    hide SubpacketLength;
    if |fpr| <= 189 {
      var s := Subpacket(33, [4] + fpr);
      ShortSubpacket(s);
      assert [2 + |fpr|] + ([33, 4] + fpr) == [2 + |fpr|] + [33] + ([4] + fpr);
      OneSubpacket(s);
      SubpacketsRoundTrip([s]);
    } else if |fpr| <= 253 {
      var area := IssuerArea(fpr).value;
      assert area[0] == 2 + |fpr| && area[1] == 33 && area[2] == 4;
      assert area[0] == 255 ==> area[1..][0] == 33;
    }
  }

  lemma ShortSubpacket(s: Subpacket)
    requires |s.body| < 191
    ensures WriteSubpacket(s) == Some([1 + |s.body|] + [s.kind] + s.body)
  {
  }

  lemma IssuerKeyIdReads(fpr: Bytes)
    ensures DecodeSubpackets(IssuerKeyId(fpr))
      == Some([Subpacket(16, if |fpr| < 8 then fpr else fpr[|fpr| - 8..])])
  {
    hide DecodeSubpackets, SubpacketLength;
    var s := Subpacket(16, LastEight(fpr));
    ShortSubpacket(s);
    assert [1 + |s.body|] + ([16] + s.body) == [1 + |s.body|] + [16] + s.body;
    OneSubpacket(s);
    SubpacketsRoundTrip([s]);
  }

  /** What a verifier finds in a detached signature over `data`: the parts, the hint and both areas. */
  predicate Detached(sig: Signature, pk: Byte, hash: Byte, fpr: Bytes, data: Bytes, sha: Hash) {
    && sig.kind == 0 && sig.pk == pk && sig.hash == hash && |sig.hashed| < 0x10000
    && Hints(sig.hint, sha(VerifierInput(data, 0, pk, hash, sig.hashed)))
    && |fpr| <= 253 && sig.hashed == [2 + |fpr|, 33, 4] + fpr
    && DecodeSubpackets(sig.hashed) == (if |fpr| <= 189 then Some([Subpacket(33, [4] + fpr)]) else None)
    && DecodeSubpackets(sig.unhashed) == Some([Subpacket(16, if |fpr| < 8 then fpr else fpr[|fpr| - 8..])])
  }

  lemma DetachedReads(pk: Byte, hash: Byte, fpr: Bytes, data: Bytes, sha: Hash, digest: Bytes, m: Material)
    requires IssuerArea(fpr).Some? && DigestOf(0, pk, hash, IssuerArea(fpr).value, [data], sha) == Some(digest)
    requires |digest| >= 2 && DetachedSignature(pk, hash, IssuerArea(fpr).value, fpr, digest, m).Some?
    requires Fits(Signed(0, pk, hash, [], [], digest, m))
    ensures var parsed := DecodeSignature(DetachedSignature(pk, hash, IssuerArea(fpr).value, fpr, digest, m).value);
      && parsed.Some? && Detached(parsed.value, pk, hash, fpr, data, sha) && parsed.value.material == m
      && digest == sha(VerifierInput(data, 0, pk, hash, parsed.value.hashed))
  {
    hide WriteSignature, DecodeSignature, HashInput, VerifierInput, Trailer, DecodeSubpackets;
    var area := IssuerArea(fpr).value;
    SignatureRoundTrip(Signed(0, pk, hash, area, IssuerKeyId(fpr), digest, m));
    assert area == [2 + |fpr|, 33, 4] + fpr;
    OneChunk(data);
    SignersInput(data, 0, pk, hash, area);
    IssuerAreaReads(fpr);
    IssuerKeyIdReads(fpr);
  }

  lemma OneChunk(data: Bytes)
    ensures Concat([data]) == data
  {
    assert [data][1..] == [];
    assert data + [] == data;
  }

  /** The digest a detached signature signs. */
  lemma DetachedDigest(pk: Byte, hash: Byte, fpr: Bytes, data: Bytes, sha: Hash)
    requires |fpr| <= 253
    ensures IssuerArea(fpr) == Some([2 + |fpr|, 33, 4] + fpr)
    ensures DigestOf(0, pk, hash, [2 + |fpr|, 33, 4] + fpr, [data], sha)
      == Some(sha(VerifierInput(data, 0, pk, hash, [2 + |fpr|, 33, 4] + fpr)))
  {
    hide HashInput, VerifierInput, Trailer;
    var area := [2 + |fpr|, 33, 4] + fpr;
    assert [2 + |fpr|] + ([33, 4] + fpr) == area;
    OneChunk(data);
    SignersInput(data, 0, pk, hash, area);
  }

  /** Which detached signatures are written: the signer's two integers must fit their counts. */
  lemma EcWritten(hash: Byte, fpr: Bytes, data: Bytes, sha: Hash, signer: Bytes -> (nat, nat))
    ensures EcSignature(hash, fpr, data, sha, signer).Some? <==>
      && |fpr| <= 253
      && var (r, s) := signer(sha(VerifierInput(data, 0, 19, hash, [2 + |fpr|, 33, 4] + fpr)));
      r < Pow2(0xFFFF) && s < Pow2(0xFFFF)
  {
    hide Pow2, Mpi, VerifierInput, HashInput, Be16, DigestOf;
    IssuerAreaReads(fpr);
    if |fpr| <= 253 {
      DetachedDigest(19, hash, fpr, data, sha);
      var (r, s) := signer(sha(VerifierInput(data, 0, 19, hash, [2 + |fpr|, 33, 4] + fpr)));
      MpiMeans(r);
      MpiMeans(s);
    }
  }

  /** A written detached signature reads back: the signer's integers in their order, over the rebuilt hash input. */
  lemma EcVerifies(hash: Byte, fpr: Bytes, data: Bytes, sha: Hash, signer: Bytes -> (nat, nat))
    requires EcSignature(hash, fpr, data, sha, signer).Some? && forall bs :: |sha(bs)| >= 2
    ensures var parsed := DecodeSignature(EcSignature(hash, fpr, data, sha, signer).value);
      && parsed.Some? && Detached(parsed.value, 19, hash, fpr, data, sha) && parsed.value.material.Pair?
      && (parsed.value.material.r, parsed.value.material.s)
         == signer(sha(VerifierInput(data, 0, 19, hash, parsed.value.hashed)))
  {
    hide DetachedSignature, DecodeSignature, VerifierInput, HashInput, DigestOf, Detached, IssuerArea;
    var area := IssuerArea(fpr).value;
    var digest := DigestOf(0, 19, hash, area, [data], sha).value;
    var (r, s) := signer(digest);
    DigestLong(19, hash, area, data, sha);
    DetachedReads(19, hash, fpr, data, sha, digest, Pair(r, s));
    DetachedParts(DecodeSignature(EcSignature(hash, fpr, data, sha, signer).value).value, 19, hash, fpr, data, sha);
  }

  lemma DigestLong(pk: Byte, hash: Byte, area: Bytes, data: Bytes, sha: Hash)
    requires DigestOf(0, pk, hash, area, [data], sha).Some? && forall bs :: |sha(bs)| >= 2
    ensures |DigestOf(0, pk, hash, area, [data], sha).value| >= 2
  {
  }

  lemma DetachedParts(sig: Signature, pk: Byte, hash: Byte, fpr: Bytes, data: Bytes, sha: Hash)
    requires Detached(sig, pk, hash, fpr, data, sha)
    ensures |sig.hashed| < 0x10000
  {
  }

  /** Which Edwards signatures are written: two hash algorithms, two key algorithms, and 64 octets signed. */
  lemma EdWritten(pk: Byte, hash: Byte, fpr: Bytes, data: Bytes, sha: Hash, signer: Bytes -> Bytes)
    ensures EdSignature(pk, hash, fpr, data, sha, signer).Some? <==>
      && |fpr| <= 253 && (hash == 8 || hash == 10) && (pk == 22 || pk == 27)
      && |signer(sha(VerifierInput(data, 0, pk, hash, [2 + |fpr|, 33, 4] + fpr)))| == 64
  {
    hide Mpi, VerifierInput, HashInput, Be16, DigestOf, Pow2, FromBe, Pow256;
    IssuerAreaReads(fpr);
    if |fpr| <= 253 {
      DetachedDigest(pk, hash, fpr, data, sha);
      var raw := signer(sha(VerifierInput(data, 0, pk, hash, [2 + |fpr|, 33, 4] + fpr)));
      if |raw| == 64 {
        HalfFits(raw[..32]);
        HalfFits(raw[32..]);
      }
    }
  }

  lemma HalfFits(half: Bytes)
    requires |half| == 32
    ensures Mpi(FromBe(half)).Some?
  {
    hide Mpi, Pow2, Pow256, FromBe;
    Pow256IsPow2(32);
    Pow2Grows(256, 0xFFFF);
    MpiMeans(FromBe(half));
  }

  /**
    A written Edwards signature reads back, and what was signed is the rebuilt hash input:
    the two integers as 32 octets each, or the 64 octets of the native form, are the
    signer's octets in order.
   */
  lemma EdVerifies(pk: Byte, hash: Byte, fpr: Bytes, data: Bytes, sha: Hash, signer: Bytes -> Bytes)
    requires EdSignature(pk, hash, fpr, data, sha, signer).Some? && forall bs :: |sha(bs)| >= 2
    ensures var parsed := DecodeSignature(EdSignature(pk, hash, fpr, data, sha, signer).value);
      && parsed.Some? && Detached(parsed.value, pk, hash, fpr, data, sha)
      && CarriesRaw(parsed.value.material, pk, signer(sha(VerifierInput(data, 0, pk, hash, parsed.value.hashed))))
  {
    hide DetachedSignature, DecodeSignature, VerifierInput, HashInput, DigestOf, Detached, IssuerArea;
    hide EdParts, CarriesRaw;
    var area := IssuerArea(fpr).value;
    var digest := DigestOf(0, pk, hash, area, [data], sha).value;
    DigestLong(pk, hash, area, data, sha);
    EdPartsFit(pk, signer(digest), digest, hash);
    DetachedReads(pk, hash, fpr, data, sha, digest, EdParts(pk, signer(digest)));
    DetachedParts(DecodeSignature(EdSignature(pk, hash, fpr, data, sha, signer).value).value, pk, hash, fpr, data, sha);
  }

  /** The material is the 64 octets of the signer, as two integers or as they are. */
  predicate CarriesRaw(m: Material, pk: Byte, raw: Bytes) {
    match m
    case Pair(r, s) => pk == 22 && r < Pow256(32) && s < Pow256(32) && Be(r, 32) + Be(s, 32) == raw
    case Native(octets) => pk == 27 && octets == raw
    case Rsa(_) => false
  }

  lemma EdPartsFit(pk: Byte, raw: Bytes, digest: Bytes, hash: Byte)
    requires (pk == 22 || pk == 27) && |raw| == 64 && |digest| >= 2
    ensures Fits(Signed(0, pk, hash, [], [], digest, EdParts(pk, raw))) && CarriesRaw(EdParts(pk, raw), pk, raw)
  {
    hide Be, FromBe, Pow256;
    FromBeInverts(raw[..32]);
    FromBeInverts(raw[32..]);
    assert raw[..32] + raw[32..] == raw;
  }

  // ---------------------------------------------------------------- the keyring

  datatype Party = Party(body: Bytes, signer: Bytes -> nat)

  function Fingerprint(body: Bytes, sha1: Hash): Option<Bytes> {
    match Framed(body) case None => None case Some(framed) => Some(sha1(framed))
  }

  /** The back-signature of the subkey over both key bodies. */
  function BackSignature(primary: Party, subkey: Party, sha1: Hash, sha256: Hash): Option<Bytes> {
    match (Fingerprint(subkey.body, sha1), BindingChunks(primary.body, subkey.body))
    case (Some(fpr), Some(chunks)) =>
      (match IssuerSubpacket(fpr)
       case None => None
       case Some(hashed) => RsaSignature(0x19, hashed, [], chunks, sha256, subkey.signer))
    case _ => None
  }

  /** The hashed area of the binding signature. */
  function BindingArea(primary: Party, back: Bytes, sha1: Hash): Option<Bytes> {
    match Fingerprint(primary.body, sha1)
    case None => None
    case Some(fpr) =>
      match (IssuerSubpacket(fpr), EmbeddedSubpacket(back))
      case (Some(issuer), Some(embedded)) => Some(issuer + KeyFlagsSubpacket(0x02) + embedded)
      case _ => None
  }

  function BindingSignature(primary: Party, subkey: Party, sha1: Hash, sha256: Hash): Option<Bytes> {
    match BackSignature(primary, subkey, sha1, sha256)
    case None => None
    case Some(back) =>
      match (BindingArea(primary, back, sha1), BindingChunks(primary.body, subkey.body))
      case (Some(area), Some(chunks)) => RsaSignature(0x18, area, [], chunks, sha256, primary.signer)
      case _ => None
  }

  function Keyring(primary: Party, subkey: Party, sha1: Hash, sha256: Hash): Option<Bytes> {
    match BindingSignature(primary, subkey, sha1, sha256)
    case None => None
    case Some(binding) => WritePackets([Packet(6, primary.body), Packet(14, subkey.body), Packet(2, binding)])
  }

  lemma AreaParses(primary: Party, back: Bytes, sha1: Hash)
    requires BindingArea(primary, back, sha1).Some?
    ensures DecodeSubpackets(BindingArea(primary, back, sha1).value)
      == Some([Subpacket(33, [4] + Fingerprint(primary.body, sha1).value), Subpacket(27, [0x02]), Subpacket(32, back)])
  {
    hide WriteSubpacket, DecodeSubpackets, IssuerSubpacket, KeyFlagsSubpacket, EmbeddedSubpacket, Fingerprint;
    var fpr := Fingerprint(primary.body, sha1).value;
    IssuerLength(fpr);
    BuildersWriteSubpackets(fpr, 0x02, back);
    var (a, b, c) := (Subpacket(33, [4] + fpr), Subpacket(27, [0x02]), Subpacket(32, back));
    ThreeSubpackets(a, b, c);
    SubpacketsRoundTrip([a, b, c]);
  }

  lemma IssuerLength(fpr: Bytes)
    ensures IssuerSubpacket(fpr).Some? <==> |fpr| == 20
  {
  }

  lemma ThreeSubpackets(a: Subpacket, b: Subpacket, c: Subpacket)
    requires WriteSubpacket(a).Some? && WriteSubpacket(b).Some? && WriteSubpacket(c).Some?
    ensures WriteSubpackets([a, b, c])
      == Some(WriteSubpacket(a).value + WriteSubpacket(b).value + WriteSubpacket(c).value)
  {
    hide WriteSubpacket;
    assert [a, b, c][1..] == [b, c] && [b, c][1..] == [c] && [c][1..] == [];
    assert WriteSubpackets([c]) == Some(WriteSubpacket(c).value + []);
    assert WriteSubpacket(c).value + [] == WriteSubpacket(c).value;
    assert WriteSubpackets([b, c]) == Some(WriteSubpacket(b).value + WriteSubpacket(c).value);
    assert WriteSubpackets([a, b, c]) == Some(WriteSubpacket(a).value + WriteSubpackets([b, c]).value);
    assert WriteSubpacket(a).value + (WriteSubpacket(b).value + WriteSubpacket(c).value)
        == WriteSubpacket(a).value + WriteSubpacket(b).value + WriteSubpacket(c).value;
  }

  /** A key body as it is hashed for fingerprints and bindings. */
  function FramedBody(body: Bytes): Bytes
    requires |body| < 0x10000
  {
    [0x99, |body| / 0x100, |body| % 0x100] + body
  }

  /** The issuer-fingerprint subpacket of a key: version 4 and the digest of the framed body. */
  function Issuer(party: Party, sha1: Hash): Subpacket
    requires |party.body| < 0x10000
  {
    Subpacket(33, [4] + sha1(FramedBody(party.body)))
  }

  /** What a reader of the keyring finds, from the packets down to the embedded signature. */
  predicate Recovers(blob: Bytes, primary: Party, subkey: Party, sha1: Hash, sha256: Hash)
  {
    && |primary.body| < 0x10000 && |subkey.body| < 0x10000
    && var data := FramedBody(primary.body) + FramedBody(subkey.body);
    match SplitPackets(blob)
    case Some(packets) =>
      && |packets| == 3
      && packets[0] == Packet(6, primary.body) && packets[1] == Packet(14, subkey.body) && packets[2].tag == 2
      && (match DecodeSignature(packets[2].body)
          case None => false
          case Some(binding) =>
            && binding.kind == 0x18 && binding.pk == 1 && binding.hash == 8 && binding.unhashed == []
            && Verifies(binding, data, sha256, primary.signer)
            && (match DecodeSubpackets(binding.hashed)
                case None => false
                case Some(subs) =>
                  && |subs| == 3
                  && subs[0] == Issuer(primary, sha1) && subs[1] == Subpacket(27, [0x02]) && subs[2].kind == 32
                  && RecoversBack(subs[2].body, data, subkey, sha1, sha256)))
    case None => false
  }

  predicate RecoversBack(body: Bytes, data: Bytes, subkey: Party, sha1: Hash, sha256: Hash)
    requires |subkey.body| < 0x10000
  {
    match DecodeSignature(body)
    case None => false
    case Some(back) =>
      && back.kind == 0x19 && back.pk == 1 && back.hash == 8 && back.unhashed == []
      && Verifies(back, data, sha256, subkey.signer)
      && DecodeSubpackets(back.hashed) == Some([Issuer(subkey, sha1)])
  }

  lemma FramedIs(body: Bytes, sha1: Hash)
    ensures Framed(body) == if |body| < 0x10000 then Some(FramedBody(body)) else None
    ensures Fingerprint(body, sha1) == if |body| < 0x10000 then Some(sha1(FramedBody(body))) else None
  {
    if |body| < 0x10000 {
      assert [0x99] + Be16(|body|) == [0x99, |body| / 0x100, |body| % 0x100];
    }
  }

  /** The chunks of a binding are the two framed bodies, the primary key's first. */
  lemma BindingData(primary: Bytes, subkey: Bytes)
    ensures BindingChunks(primary, subkey).Some? <==> |primary| < 0x10000 && |subkey| < 0x10000
    ensures BindingChunks(primary, subkey).Some? ==>
      Concat(BindingChunks(primary, subkey).value) == FramedBody(primary) + FramedBody(subkey)
  {
    hide FramedBody, Framed, Concat;
    FramedIs(primary, bs => bs);
    FramedIs(subkey, bs => bs);
    if BindingChunks(primary, subkey).Some? {
      PairConcat(BindingChunks(primary, subkey).value);
    }
  }

  lemma BackRecovered(primary: Party, subkey: Party, sha1: Hash, sha256: Hash)
    requires BackSignature(primary, subkey, sha1, sha256).Some? && forall bs :: |sha256(bs)| >= 2
    ensures |primary.body| < 0x10000 && |subkey.body| < 0x10000
    ensures RecoversBack(BackSignature(primary, subkey, sha1, sha256).value,
      FramedBody(primary.body) + FramedBody(subkey.body), subkey, sha1, sha256)
  {
    hide RsaSignature, Verifies, DecodeSignature, WriteSubpacket, DecodeSubpackets, IssuerSubpacket, BindingChunks;
    hide Fingerprint, FramedBody, Concat;
    FramedIs(subkey.body, sha1);
    BindingData(primary.body, subkey.body);
    var fpr := Fingerprint(subkey.body, sha1).value;
    var hashed := IssuerSubpacket(fpr).value;
    IssuerLength(fpr);
    SignedVerifies(0x19, hashed, [], BindingChunks(primary.body, subkey.body).value, sha256, subkey.signer);
    BuildersWriteSubpackets(fpr, 0x02, []);
    var issuer := Subpacket(33, [4] + fpr);
    OneSubpacket(issuer);
    SubpacketsRoundTrip([issuer]);
  }

  lemma OneSubpacket(s: Subpacket)
    requires WriteSubpacket(s).Some?
    ensures WriteSubpackets([s]) == WriteSubpacket(s)
  {
    hide WriteSubpacket;
    assert [s][1..] == [];
    assert WriteSubpacket(s).value + [] == WriteSubpacket(s).value;
  }

  /**
    Whatever keys and hash functions are used, a keyring that could be written reads
    back as its three packets, and both the binding signature and the back-signature
    embedded in its hashed area verify over the key bodies read from the keyring.
   */
  lemma KeyringVerifies(primary: Party, subkey: Party, sha1: Hash, sha256: Hash)
    requires Keyring(primary, subkey, sha1, sha256).Some? && forall bs :: |sha256(bs)| >= 2
    ensures Recovers(Keyring(primary, subkey, sha1, sha256).value, primary, subkey, sha1, sha256)
  {
    hide RsaSignature, Verifies, DecodeSignature, DecodeSubpackets, WritePackets, SplitPackets;
    hide BindingArea, BackSignature, RecoversBack, BindingChunks, FramedBody, Concat, Fingerprint;
    var binding := BindingSignature(primary, subkey, sha1, sha256).value;
    var packets := [Packet(6, primary.body), Packet(14, subkey.body), Packet(2, binding)];
    PacketsSplit(packets, WritePackets(packets).value);
    var back := BackSignature(primary, subkey, sha1, sha256).value;
    var area := BindingArea(primary, back, sha1).value;
    var chunks := BindingChunks(primary.body, subkey.body).value;
    SignedVerifies(0x18, area, [], chunks, sha256, primary.signer);
    AreaParses(primary, back, sha1);
    BackRecovered(primary, subkey, sha1, sha256);
    BindingData(primary.body, subkey.body);
    FramedIs(primary.body, sha1);
  }

  /** The octets of a written signature: a fixed part, both areas, and at most 8192 octets of the integer. */
  lemma SignatureSize(kind: Byte, hashed: Bytes, unhashed: Bytes, chunks: seq<Bytes>, sha: Hash, signer: Bytes -> nat)
    requires RsaSignature(kind, hashed, unhashed, chunks, sha, signer).Some? && forall bs :: |sha(bs)| >= 2
    ensures |RsaSignature(kind, hashed, unhashed, chunks, sha, signer).value| <= 10 + |hashed| + |unhashed| + 8194
  {
    hide HashInput, Concat, BitLength, Be16, Pow256, Be;
    var digest := DigestOf(kind, 1, 8, hashed, chunks, sha).value;
    FitsBytes(signer(digest));
  }

  /** With usual digests and keys every pair of key bodies that fits a packet gives a keyring. */
  lemma KeyringWritten(primary: Party, subkey: Party, sha1: Hash, sha256: Hash)
    requires (forall bs :: |sha1(bs)| == 20) && forall bs :: |sha256(bs)| >= 2
    requires forall bs :: BitLength(primary.signer(bs)) <= 0xFFFF && BitLength(subkey.signer(bs)) <= 0xFFFF
    ensures Keyring(primary, subkey, sha1, sha256).Some? <==> |primary.body| < 0x10000 && |subkey.body| < 0x10000
  {
    hide RsaSignature, BitLength, Pow2, Concat, BindingChunks, Fingerprint, FramedBody, OldFormatPacket, VerifierInput;
    forall n: nat ensures BitLength(n) <= 0xFFFF <==> n < Pow2(0xFFFF) { MpiMeans(n); }
    FramedIs(primary.body, sha1);
    FramedIs(subkey.body, sha1);
    BindingData(primary.body, subkey.body);
    if |primary.body| < 0x10000 && |subkey.body| < 0x10000 {
      var chunks := BindingChunks(primary.body, subkey.body).value;
      var hashed := IssuerSubpacket(Fingerprint(subkey.body, sha1).value).value;
      SignatureWritten(0x19, hashed, [], chunks, sha256, subkey.signer);
      SignatureSize(0x19, hashed, [], chunks, sha256, subkey.signer);
      var back := BackSignature(primary, subkey, sha1, sha256).value;
      var area := BindingArea(primary, back, sha1).value;
      SignatureWritten(0x18, area, [], chunks, sha256, primary.signer);
      SignatureSize(0x18, area, [], chunks, sha256, primary.signer);
      var binding := BindingSignature(primary, subkey, sha1, sha256).value;
      ThreePackets(primary.body, subkey.body, binding);
    } else {
      assert BackSignature(primary, subkey, sha1, sha256) == None;
    }
  }

  lemma ThreePackets(a: Bytes, b: Bytes, c: Bytes)
    requires |a| < 0x10000 && |b| < 0x10000 && |c| < 0x10000
    ensures WritePackets([Packet(6, a), Packet(14, b), Packet(2, c)]).Some?
  {
    hide OldFormatPacket;
    PacketOctets(a);
    PacketOctets(b);
    PacketOctets(c);
    var packets := [Packet(6, a), Packet(14, b), Packet(2, c)];
    assert packets[1..] == [Packet(14, b), Packet(2, c)] && packets[1..][1..] == [Packet(2, c)];
    assert packets[1..][1..][1..] == [];
    assert WritePackets([Packet(2, c)]).Some?;
    assert WritePackets([Packet(14, b), Packet(2, c)]).Some?;
  }
}
