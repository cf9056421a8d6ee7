/**
  The in-place patches the trigger tests apply to a header blob
  (pytests/tests/test_native_file_triggers.py).
 */
module RpmPatch {
  import opened Wrappers
  import opened Octets
  import opened RpmHeader

  const FILESTATES: nat := 1029
  const PROGRAM: nat := 5067
  const FILETRIGGER_INDEX: nat := 5070
  const HIDDEN: nat := 60000

  /** Raised: a read or write outside the blob, or a number that does not fit. */
  datatype Outcome = Patched | NotFound | Raised

  datatype Hit = Found(k: nat) | Missing | Short

  /** The first entry with this tag; `width` octets of each entry are read on the way. */
  function Search(blob: Bytes, tag: nat, width: nat, k: nat, n: nat): (r: Hit)
    requires k <= n && 4 <= width <= 16
    ensures r.Found? ==> k <= r.k < n && 8 + 16 * r.k + width <= |blob|
    decreases n - k
  {
    var at := 8 + 16 * k;
    if k == n then Missing
    else if at + width > |blob| then Short
    else if FromBe32(blob[at..]) == tag then Found(k)
    else Search(blob, tag, width, k + 1, n)
  }

  function SearchAll(blob: Bytes, tag: nat, width: nat): (r: Hit)
    requires 4 <= width <= 16
  {
    if |blob| < 4 then Short else Search(blob, tag, width, 0, FromBe32(blob))
  }

  /** `blob` with `octets` at `at`. */
  function Overwrite(blob: Bytes, at: nat, octets: Bytes): (r: Bytes)
    requires at + |octets| <= |blob|
    ensures |r| == |blob|
  {
    blob[..at] + octets + blob[at + |octets|..]
  }

  function SetState(blob: Bytes, state: int): (Outcome, Bytes) {
    match SearchAll(blob, FILESTATES, 12)
    case Short => (Raised, blob)
    case Missing => (NotFound, blob)
    case Found(k) =>
      var at := 8 + 16 * FromBe32(blob) + FromBe32(blob[8 + 16 * k + 8..]);
      if at < |blob| && 0 <= state < 256 then (Patched, Overwrite(blob, at, [state])) else (Raised, blob)
  }

  function CorruptCount(blob: Bytes): (Outcome, Bytes) {
    match SearchAll(blob, FILETRIGGER_INDEX, 4)
    case Short => (Raised, blob)
    case Missing => (NotFound, blob)
    case Found(k) =>
      var at := 8 + 16 * k + 12;
      if at + 4 <= |blob| && FromBe32(blob[at..]) + 1 < LIMIT then
        (Patched, Overwrite(blob, at, Be32(FromBe32(blob[at..]) + 1)))
      else (Raised, blob)
  }

  function HideTag(blob: Bytes): (Outcome, Bytes) {
    match SearchAll(blob, PROGRAM, 4)
    case Short => (Raised, blob)
    case Missing => (NotFound, blob)
    case Found(k) => (Patched, Overwrite(blob, 8 + 16 * k, Be32(HIDDEN)))
  }

  // ---------------------------------------------------------------- in place

  /** `struct.unpack_from(">I", blob, at)[0]` */
  method Unpack(blob: array<Byte>, at: nat) returns (n: nat)
    requires at + 4 <= blob.Length
    ensures n == FromBe32(blob[..][at..])
  {
    n := FromBe32(blob[at..]);
    assert blob[..][at..] == blob[at..];
  }

  /** `struct.pack_into(">I", blob, at, n)` */
  method PackInto(blob: array<Byte>, at: nat, n: nat)
    requires at + 4 <= blob.Length && n < LIMIT
    modifies blob
    ensures blob[..] == Overwrite(old(blob[..]), at, Be32(n))
  {
    var octets := Be32(n);
    for i := 0 to 4
      invariant blob[..] == Overwrite(old(blob[..]), at, octets[..i])
    {
      blob[at + i] := octets[i];
    }
    assert octets[..4] == octets;
  }

  method FindEntry(blob: array<Byte>, tag: nat, width: nat) returns (r: Hit)
    requires 4 <= width <= 16
    ensures r == SearchAll(blob[..], tag, width)
  {
    if blob.Length < 4 {
      return Short;
    }
    var count := Unpack(blob, 0);
    assert blob[..][0..] == blob[..];
    var index := 0;
    while index < count
      invariant 0 <= index <= count
      invariant SearchAll(blob[..], tag, width) == Search(blob[..], tag, width, index, count)
    {
      var offset := 8 + index * 16;
      if offset + width > blob.Length {
        return Short;
      }
      var found := Unpack(blob, offset);
      if found == tag {
        return Found(index);
      }
      index := index + 1;
    }
    return Missing;
  }

  method SetFirstFileState(blob: array<Byte>, state: int) returns (r: Outcome)
    modifies blob
    ensures (r, blob[..]) == SetState(old(blob[..]), state)
  {
    hide Search, FromBe32;
    var hit := FindEntry(blob, FILESTATES, 12);
    if hit == Short {
      return Raised;
    }
    if hit == Missing {
      return NotFound;
    }
    var count := Unpack(blob, 0);
    assert blob[..][0..] == blob[..];
    var dataOffset := Unpack(blob, 8 + 16 * hit.k + 8);
    var at := 8 + 16 * count + dataOffset;
    if at >= blob.Length || !(0 <= state < 256) {
      return Raised;
    }
    blob[at] := state;
    assert blob[..] == Overwrite(old(blob[..]), at, [state]);
    return Patched;
  }

  method CorruptIndexCount(blob: array<Byte>) returns (r: Outcome)
    modifies blob
    ensures (r, blob[..]) == CorruptCount(old(blob[..]))
  {
    hide Search, FromBe32, Be32, Overwrite;
    var hit := FindEntry(blob, FILETRIGGER_INDEX, 4);
    if hit == Short {
      return Raised;
    }
    if hit == Missing {
      return NotFound;
    }
    var at := 8 + 16 * hit.k + 12;
    if at + 4 > blob.Length {
      return Raised;
    }
    var count := Unpack(blob, at);
    if count + 1 >= LIMIT {
      return Raised;
    }
    PackInto(blob, at, count + 1);
    return Patched;
  }

  method HideProgramTag(blob: array<Byte>) returns (r: Outcome)
    modifies blob
    ensures (r, blob[..]) == HideTag(old(blob[..]))
  {
    hide Search, FromBe32, Be32, Overwrite;
    var hit := FindEntry(blob, PROGRAM, 4);
    if hit == Short {
      return Raised;
    }
    if hit == Missing {
      return NotFound;
    }
    PackInto(blob, 8 + 16 * hit.k, HIDDEN);
    return Patched;
  }

  // ---------------------------------------------------------------- any blob, octet by octet

  /** Entry `k` lies within the blob, whatever the prefix says. */
  predicate HasEntry(blob: Bytes, k: nat) {
    8 + 16 * k + 16 <= |blob|
  }

  function TagAt(blob: Bytes, k: nat): nat
    requires 8 + 16 * k + 4 <= |blob|
  {
    FromBe32(blob[8 + 16 * k..])
  }

  lemma {:induction false} SearchIs(blob: Bytes, tag: nat, width: nat, k: nat, n: nat)
    requires k <= n && 4 <= width <= 16
    ensures forall j: nat :: Search(blob, tag, width, k, n) == Found(j) <==>
      && k <= j < n && 8 + 16 * j + width <= |blob| && TagAt(blob, j) == tag
      && forall i :: k <= i < j ==> TagAt(blob, i) != tag
    ensures Search(blob, tag, width, k, n) == Missing <==>
      forall i :: k <= i < n ==> 8 + 16 * i + width <= |blob| && TagAt(blob, i) != tag
    decreases n - k
  {
    hide FromBe32;
    if k < n {
      assert 8 + 16 * k + width <= |blob| ==> TagAt(blob, k) == FromBe32(blob[8 + 16 * k..]);
      if 8 + 16 * k + width <= |blob| && TagAt(blob, k) != tag {
        SearchIs(blob, tag, width, k + 1, n);
      }
    }
  }

  /** The search loop finds the first entry with the tag, and misses it only if no entry has it. */
  lemma SearchMeans(blob: Bytes, tag: nat, width: nat)
    requires 4 <= width <= 16 && |blob| >= 4
    ensures forall j: nat :: SearchAll(blob, tag, width) == Found(j) <==>
      && j < FromBe32(blob) && 8 + 16 * j + width <= |blob| && TagAt(blob, j) == tag
      && forall i :: 0 <= i < j ==> TagAt(blob, i) != tag
    ensures SearchAll(blob, tag, width) == Missing <==>
      forall i :: 0 <= i < FromBe32(blob) ==> 8 + 16 * i + width <= |blob| && TagAt(blob, i) != tag
  {
    hide FromBe32, Search, TagAt;
    SearchIs(blob, tag, width, 0, FromBe32(blob));
  }

  lemma {:induction false} SearchSame(a: Bytes, b: Bytes, tag: nat, width: nat, k: nat, n: nat)
    requires |a| == |b| && k <= n && 4 <= width <= 16
    requires forall j :: k <= j < n && 8 + 16 * j + width <= |a| ==> (TagAt(a, j) == tag <==> TagAt(b, j) == tag)
    ensures Search(a, tag, width, k, n) == Search(b, tag, width, k, n)
    decreases n - k
  {
    hide FromBe32;
    if k < n && 8 + 16 * k + width <= |a| {
      assert TagAt(a, k) == tag <==> TagAt(b, k) == tag;
      SearchSame(a, b, tag, width, k + 1, n);
    }
  }

  lemma Be32Local(a: Bytes, b: Bytes, at: nat)
    requires at + 4 <= |a| && at + 4 <= |b| && a[at..at + 4] == b[at..at + 4]
    ensures FromBe32(a[at..]) == FromBe32(b[at..])
  {
    forall i | 0 <= i < 4 ensures a[at..][i] == b[at..][i] {
      assert a[at..][i] == a[at..at + 4][i] && b[at..][i] == b[at..at + 4][i];
    }
  }

  lemma SliceLocal(a: Bytes, b: Bytes, from: nat, to: nat, lo: nat, hi: nat)
    requires from <= lo <= hi <= to && to <= |a| && to <= |b| && a[from..to] == b[from..to]
    ensures a[lo..hi] == b[lo..hi]
  {
    forall i | lo <= i < hi ensures a[i] == b[i] {
      assert a[from..to][i - from] == a[i] && b[from..to][i - from] == b[i];
    }
  }

  lemma EntryLocal(a: Bytes, b: Bytes, k: nat)
    requires HasEntry(a, k) && HasEntry(b, k) && a[8 + 16 * k..24 + 16 * k] == b[8 + 16 * k..24 + 16 * k]
    ensures ReadEntry(a, k) == ReadEntry(b, k)
  {
    hide FromBe32;
    var at := 8 + 16 * k;
    forall i | 0 <= i < 4 ensures FromBe32(a[at + 4 * i..]) == FromBe32(b[at + 4 * i..]) {
      SliceLocal(a, b, at, at + 16, at + 4 * i, at + 4 * i + 4);
      Be32Local(a, b, at + 4 * i);
    }
    assert at + 4 * 0 == at && at + 4 * 1 == at + 4 && at + 4 * 2 == at + 8 && at + 4 * 3 == at + 12;
  }

  lemma Untouched(blob: Bytes, at: nat, octets: Bytes, from: nat, to: nat)
    requires at + |octets| <= |blob| && from <= to <= |blob| && (to <= at || at + |octets| <= from)
    ensures Overwrite(blob, at, octets)[from..to] == blob[from..to]
  {
  }

  lemma Written32(blob: Bytes, at: nat, n: nat)
    requires at + 4 <= |blob| && n < 0x1_0000_0000
    ensures FromBe32(Overwrite(blob, at, Be32(n))[at..]) == n
  {
    hide Be32, FromBe32;
    assert Overwrite(blob, at, Be32(n))[at..] == Be32(n) + blob[at + 4..];
    Be32Inverts(n, blob[at + 4..]);
  }

  /** Four octets of entry `k`'s index overwritten: its other numbers and all other entries stay. */
  lemma WordPatch(blob: Bytes, k: nat, word: nat, n: nat)
    requires word < 4 && 8 + 16 * k + 4 * word + 4 <= |blob| && n < 0x1_0000_0000
    ensures var out := Overwrite(blob, 8 + 16 * k + 4 * word, Be32(n));
      && |out| == |blob| && out[..8] == blob[..8]
      && (forall j :: 0 <= j != k && HasEntry(blob, j) ==> ReadEntry(out, j) == ReadEntry(blob, j))
      && (forall w :: 0 <= w < 4 && 8 + 16 * k + 4 * w + 4 <= |blob| ==>
            FromBe32(out[8 + 16 * k + 4 * w..]) == if w == word then n else FromBe32(blob[8 + 16 * k + 4 * w..]))
  {
    hide Be32, FromBe32, Overwrite, ReadEntry;
    var at := 8 + 16 * k + 4 * word;
    var out := Overwrite(blob, at, Be32(n));
    Untouched(blob, at, Be32(n), 0, 8);
    Written32(blob, at, n);
    forall j | 0 <= j != k && HasEntry(blob, j) ensures ReadEntry(out, j) == ReadEntry(blob, j) {
      Untouched(blob, at, Be32(n), 8 + 16 * j, 24 + 16 * j);
      EntryLocal(out, blob, j);
    }
    forall w | 0 <= w < 4 && w != word && 8 + 16 * k + 4 * w + 4 <= |blob|
      ensures FromBe32(out[8 + 16 * k + 4 * w..]) == FromBe32(blob[8 + 16 * k + 4 * w..])
    {
      Untouched(blob, at, Be32(n), 8 + 16 * k + 4 * w, 8 + 16 * k + 4 * w + 4);
      Be32Local(out, blob, 8 + 16 * k + 4 * w);
    }
  }

  lemma PrefixLocal(a: Bytes, b: Bytes)
    requires |a| >= 4 && |b| >= 4 && a[..4] == b[..4]
    ensures FromBe32(a) == FromBe32(b)
  {
    hide FromBe32;
    Be32Local(a, b, 0);
    assert a[0..] == a && b[0..] == b;
  }

  // ---------------------------------------------------------------- the octets of an entry

  /** Where the `count`-th NUL of `bs` ends. */
  function NulEnd(bs: Bytes, count: nat): (r: Option<nat>)
    ensures r.Some? ==> r.value <= |bs|
    decreases |bs|, count
  {
    if count == 0 then Some(0)
    else if bs == [] then None
    else
      match NulEnd(bs[1..], if bs[0] == 0 then count - 1 else count)
      case None => None
      case Some(n) => Some(n + 1)
  }

  /** How many octets an entry of this kind and count takes of `bs`. */
  function Length(kind: nat, count: nat, bs: Bytes): Option<nat> {
    if kind == 1 || kind == 2 || kind == 7 then Some(count)
    else if kind == 3 then Some(2 * count)
    else if kind == INT32 then Some(4 * count)
    else if kind == 5 then Some(8 * count)
    else if kind == STRING then (if count == 1 then NulEnd(bs, 1) else None)
    else if kind == STRING_ARRAY || kind == 9 then NulEnd(bs, count)
    else None
  }

  /** The octets of an entry in a data section, or None where the header's reader has none. */
  function RawBytes(e: Entry, data: Bytes): (r: Option<Bytes>)
    ensures r.Some? ==> e.offset + |r.value| <= |data| && r.value == data[e.offset..e.offset + |r.value|]
  {
    if e.offset > |data| then None
    else
      match Length(e.kind, e.count, data[e.offset..])
      case None => None
      case Some(n) => if e.offset + n > |data| then None else Some(data[e.offset..e.offset + n])
  }

  /** The octets of entry `k` of a blob. */
  function EntryBytes(blob: Bytes, k: nat): Option<Bytes>
    requires |blob| >= 4 && HasEntry(blob, k) && 8 + 16 * FromBe32(blob) <= |blob|
  {
    RawBytes(ReadEntry(blob, k), blob[8 + 16 * FromBe32(blob)..])
  }

  lemma {:induction false} NulEndLocal(a: Bytes, b: Bytes, count: nat)
    requires |a| == |b| && NulEnd(a, count).Some? && a[..NulEnd(a, count).value] == b[..NulEnd(a, count).value]
    ensures NulEnd(b, count) == NulEnd(a, count)
    decreases |a|
  {
    if count > 0 {
      var n := NulEnd(a, count).value;
      assert a[..n][0] == b[..n][0];
      assert a[1..][..n - 1] == a[..n][1..] && b[1..][..n - 1] == b[..n][1..];
      NulEndLocal(a[1..], b[1..], if a[0] == 0 then count - 1 else count);
    }
  }

  /** An entry's octets depend on themselves only. */
  lemma RawLocal(e: Entry, a: Bytes, b: Bytes)
    requires |a| == |b| && RawBytes(e, a).Some?
    requires a[e.offset..e.offset + |RawBytes(e, a).value|] == b[e.offset..e.offset + |RawBytes(e, a).value|]
    ensures RawBytes(e, b) == RawBytes(e, a)
  {
    hide NulEnd;
    var n := |RawBytes(e, a).value|;
    var (x, y) := (a[e.offset..], b[e.offset..]);
    assert x[..n] == a[e.offset..e.offset + n] && y[..n] == b[e.offset..e.offset + n];
    if e.kind == STRING || e.kind == STRING_ARRAY || e.kind == 9 {
      NulEndLocal(x, y, e.count);
    }
  }

  /** One octet of the data changes: an entry's octets change iff it is one of them. */
  lemma RawChanges(e: Entry, data: Bytes, at: nat, x: Byte)
    requires at < |data| && RawBytes(e, data).Some?
    ensures RawBytes(e, data[at := x]) != RawBytes(e, data)
      <==> x != data[at] && e.offset <= at < e.offset + |RawBytes(e, data).value|
  {
    hide Length;
    var changed := data[at := x];
    var r := RawBytes(e, data).value;
    if x == data[at] {
      assert changed == data;
    } else if e.offset <= at < e.offset + |r| {
      assert changed[e.offset..e.offset + |r|][at - e.offset] == x;
      assert r[at - e.offset] == data[at];
    } else {
      hide RawBytes;
      assert changed[e.offset..e.offset + |r|] == data[e.offset..e.offset + |r|];
      RawLocal(e, data, changed);
    }
  }

  // ---------------------------------------------------------------- what a patch means, on any blob

  /** Where the state patch writes, given the entry it found. */
  function StateAt(blob: Bytes, k: nat): nat
    requires |blob| >= 4 && 8 + 16 * k + 12 <= |blob|
  {
    8 + 16 * FromBe32(blob) + FromBe32(blob[8 + 16 * k + 8..])
  }

  /**
    The state patch changes at most one octet, behind the index: every entry stays as
    it was, and the octets of an entry change iff that octet is one of them.
   */
  lemma StatePatchMeans(blob: Bytes, state: int)
    ensures var hit := SearchAll(blob, 1029, 12);
      var (r, out) := SetState(blob, state);
      && (r == NotFound <==> hit == Missing)
      && (r == Patched <==> hit.Found? && StateAt(blob, hit.k) < |blob| && 0 <= state < 256)
      && (r != Patched ==> out == blob)
      && (r == Patched ==>
            var at := StateAt(blob, hit.k);
            && out == blob[at := state] && FromBe32(out) == FromBe32(blob)
            && forall j :: 0 <= j < FromBe32(blob) ==>
                 && ReadEntry(out, j) == ReadEntry(blob, j)
                 && (EntryBytes(blob, j).Some? ==>
                      var from := 8 + 16 * FromBe32(blob) + ReadEntry(blob, j).offset;
                      (EntryBytes(out, j) != EntryBytes(blob, j)
                       <==> state != blob[at] && from <= at < from + |EntryBytes(blob, j).value|)))
  {
    hide Search, FromBe32, RawBytes, ReadEntry;
    var hit := SearchAll(blob, 1029, 12);
    if hit.Found? && StateAt(blob, hit.k) < |blob| && 0 <= state < 256 {
      var at := StateAt(blob, hit.k);
      var out := SetState(blob, state).1;
      var start := 8 + 16 * FromBe32(blob);
      assert out == blob[at := state];
      PrefixLocal(out, blob);
      forall j | 0 <= j < FromBe32(blob)
        ensures ReadEntry(out, j) == ReadEntry(blob, j)
        ensures EntryBytes(blob, j).Some? ==>
          var from := start + ReadEntry(blob, j).offset;
          (EntryBytes(out, j) != EntryBytes(blob, j)
           <==> state != blob[at] && from <= at < from + |EntryBytes(blob, j).value|)
      {
        EntryLocal(out, blob, j);
        if EntryBytes(blob, j).Some? {
          assert out[start..] == blob[start..][at - start := state];
          RawChanges(ReadEntry(blob, j), blob[start..], at - start, state);
        }
      }
    }
  }

  /** The entry found by the patch reaches at least one octet, and no other readable entry covers it. */
  ghost predicate OwnOctet(blob: Bytes, k: nat)
    requires |blob| >= 4 && HasEntry(blob, k) && 8 + 16 * FromBe32(blob) <= |blob|
  {
    && EntryBytes(blob, k).Some? && EntryBytes(blob, k).value != []
    && forall j :: 0 <= j < FromBe32(blob) && j != k && EntryBytes(blob, j).Some? ==>
         !(ReadEntry(blob, j).offset <= ReadEntry(blob, k).offset
             < ReadEntry(blob, j).offset + |EntryBytes(blob, j).value|)
  }

  /**
    Among readable entries a new state changes the octets of the state entry alone iff
    that entry has an octet and shares its first with no other.
   */
  lemma StatePatchChangesOnlyState(blob: Bytes, state: int, k: nat)
    requires SetState(blob, state).0 == Patched && SearchAll(blob, 1029, 12) == Found(k)
    requires state != blob[StateAt(blob, k)] && EntryBytes(blob, k).Some?
    ensures OwnOctet(blob, k) <==>
      forall j :: 0 <= j < FromBe32(blob) && EntryBytes(blob, j).Some? ==>
        (EntryBytes(SetState(blob, state).1, j) != EntryBytes(blob, j) <==> j == k)
  {
    hide Search, FromBe32, EntryBytes;
    StatePatchMeans(blob, state);
    StateOffset(blob, k);
  }

  lemma StateOffset(blob: Bytes, k: nat)
    requires |blob| >= 4 && HasEntry(blob, k)
    ensures StateAt(blob, k) == 8 + 16 * FromBe32(blob) + ReadEntry(blob, k).offset
  {
    hide FromBe32;
  }

  /** The count patch raises one entry's count by one and leaves every other entry, and its octets, alone. */
  lemma CountPatchMeans(blob: Bytes)
    ensures var hit := SearchAll(blob, 5070, 4);
      var (r, out) := CorruptCount(blob);
      && (r == NotFound <==> hit == Missing)
      && (r == Patched <==> hit.Found? && HasEntry(blob, hit.k) && ReadEntry(blob, hit.k).count + 1 < 0x1_0000_0000)
      && (r != Patched ==> out == blob)
      && (r == Patched ==>
            && |out| == |blob| && FromBe32(out) == FromBe32(blob)
            && out[..8 + 16 * hit.k + 12] == blob[..8 + 16 * hit.k + 12]
            && out[8 + 16 * hit.k + 16..] == blob[8 + 16 * hit.k + 16..]
            && ReadEntry(out, hit.k) == ReadEntry(blob, hit.k).(count := ReadEntry(blob, hit.k).count + 1)
            && forall j :: 0 <= j != hit.k && HasEntry(blob, j) ==>
                 && ReadEntry(out, j) == ReadEntry(blob, j)
                 && (8 + 16 * FromBe32(blob) <= |blob| ==> EntryBytes(out, j) == EntryBytes(blob, j)))
  {
    hide Search, FromBe32, RawBytes, Be32;
    var hit := SearchAll(blob, 5070, 4);
    if hit.Found? && HasEntry(blob, hit.k) && ReadEntry(blob, hit.k).count + 1 < 0x1_0000_0000 {
      var k, n := hit.k, ReadEntry(blob, hit.k).count + 1;
      assert CorruptCount(blob) == (Patched, Overwrite(blob, 8 + 16 * k + 12, Be32(n)));
      CountWord(blob, k, n);
    }
  }

  lemma CountWord(blob: Bytes, k: nat, n: nat)
    requires |blob| >= 4 && HasEntry(blob, k) && n < 0x1_0000_0000 && k < FromBe32(blob)
    ensures var out := Overwrite(blob, 8 + 16 * k + 12, Be32(n));
      && |out| == |blob| && FromBe32(out) == FromBe32(blob)
      && out[..8 + 16 * k + 12] == blob[..8 + 16 * k + 12] && out[8 + 16 * k + 16..] == blob[8 + 16 * k + 16..]
      && ReadEntry(out, k) == ReadEntry(blob, k).(count := n)
      && forall j :: 0 <= j != k && HasEntry(blob, j) ==>
           && ReadEntry(out, j) == ReadEntry(blob, j)
           && (8 + 16 * FromBe32(blob) <= |blob| ==> EntryBytes(out, j) == EntryBytes(blob, j))
  {
    hide FromBe32, RawBytes, Be32;
    var out := Overwrite(blob, 8 + 16 * k + 12, Be32(n));
    WordPatch(blob, k, 3, n);
    assert out[..4] == blob[..4];
    PrefixLocal(out, blob);
    assert FromBe32(out[8 + 16 * k + 4 * 0..]) == FromBe32(blob[8 + 16 * k + 4 * 0..]);
    assert FromBe32(out[8 + 16 * k + 4 * 1..]) == FromBe32(blob[8 + 16 * k + 4 * 1..]);
    assert FromBe32(out[8 + 16 * k + 4 * 2..]) == FromBe32(blob[8 + 16 * k + 4 * 2..]);
    assert FromBe32(out[8 + 16 * k + 4 * 3..]) == n;
    if 8 + 16 * FromBe32(blob) <= |blob| {
      var start := 8 + 16 * FromBe32(blob);
      assert start >= 8 + 16 * k + 16;
      assert out[start..] == blob[start..];
    }
  }

  /** The hide patch changes one entry's tag and nothing else of it, and leaves every other entry alone. */
  lemma HidePatchMeans(blob: Bytes)
    ensures var hit := SearchAll(blob, 5067, 4);
      var (r, out) := HideTag(blob);
      && (r == NotFound <==> hit == Missing) && (r == Patched <==> hit.Found?) && (r != Patched ==> out == blob)
      && (r == Patched ==>
            && |out| == |blob| && FromBe32(out) == FromBe32(blob)
            && out[..8 + 16 * hit.k] == blob[..8 + 16 * hit.k]
            && out[8 + 16 * hit.k + 4..] == blob[8 + 16 * hit.k + 4..]
            && TagAt(out, hit.k) == 60000
            && forall j :: 0 <= j && HasEntry(blob, j) ==>
                 && ReadEntry(out, j) == (if j == hit.k then ReadEntry(blob, j).(tag := 60000) else ReadEntry(blob, j))
                 && (8 + 16 * FromBe32(blob) <= |blob| ==> EntryBytes(out, j) == EntryBytes(blob, j)))
  {
    hide Search, FromBe32, RawBytes, Be32;
    var hit := SearchAll(blob, 5067, 4);
    if hit.Found? {
      TagWord(blob, hit.k);
    }
  }

  lemma TagWord(blob: Bytes, k: nat)
    requires |blob| >= 4 && 8 + 16 * k + 4 <= |blob| && k < FromBe32(blob)
    ensures var out := Overwrite(blob, 8 + 16 * k, Be32(60000));
      && |out| == |blob| && FromBe32(out) == FromBe32(blob) && TagAt(out, k) == 60000
      && out[..8 + 16 * k] == blob[..8 + 16 * k] && out[8 + 16 * k + 4..] == blob[8 + 16 * k + 4..]
      && forall j :: 0 <= j && HasEntry(blob, j) ==>
           && ReadEntry(out, j) == (if j == k then ReadEntry(blob, j).(tag := 60000) else ReadEntry(blob, j))
           && (8 + 16 * FromBe32(blob) <= |blob| ==> EntryBytes(out, j) == EntryBytes(blob, j))
  {
    hide FromBe32, Be32, Length, NulEnd;
    var out := Overwrite(blob, 8 + 16 * k, Be32(60000));
    WordPatch(blob, k, 0, 60000);
    assert out[..4] == blob[..4];
    PrefixLocal(out, blob);
    assert FromBe32(out[8 + 16 * k + 4 * 0..]) == 60000;
    if HasEntry(blob, k) {
      assert FromBe32(out[8 + 16 * k + 4 * 1..]) == FromBe32(blob[8 + 16 * k + 4 * 1..]);
      assert FromBe32(out[8 + 16 * k + 4 * 2..]) == FromBe32(blob[8 + 16 * k + 4 * 2..]);
      assert FromBe32(out[8 + 16 * k + 4 * 3..]) == FromBe32(blob[8 + 16 * k + 4 * 3..]);
    }
    if 8 + 16 * FromBe32(blob) <= |blob| {
      var start := 8 + 16 * FromBe32(blob);
      assert start >= 8 + 16 * k + 16;
      assert out[start..] == blob[start..];
    }
  }

  lemma TagKept(blob: Bytes, k: nat, j: nat)
    requires 8 + 16 * k + 4 <= |blob| && 8 + 16 * j + 4 <= |blob| && j != k
    ensures TagAt(Overwrite(blob, 8 + 16 * k, Be32(60000)), j) == TagAt(blob, j)
  {
    hide FromBe32, Be32;
    Untouched(blob, 8 + 16 * k, Be32(60000), 8 + 16 * j, 12 + 16 * j);
    Be32Local(Overwrite(blob, 8 + 16 * k, Be32(60000)), blob, 8 + 16 * j);
  }

  /**
    Searches of the patched blob: another tag (60000 apart) is found where it was, and
    the hidden tag is found iff a second entry has it, at the first such entry.
   */
  lemma HiddenLookups(blob: Bytes, k: nat, width: nat)
    requires SearchAll(blob, 5067, 4) == Found(k) && 4 <= width <= 16
    ensures var out := HideTag(blob).1;
      && (forall tag :: tag != 5067 && tag != 60000 ==>
            SearchAll(out, tag, width) == SearchAll(blob, tag, width))
      && (forall j: nat :: SearchAll(out, 5067, width) == Found(j) <==>
            && k < j < FromBe32(blob) && 8 + 16 * j + width <= |blob| && TagAt(blob, j) == 5067
            && forall i :: k < i < j ==> TagAt(blob, i) != 5067)
  {
    hide Search, FromBe32, Be32, TagAt, Overwrite;
    var out := HideTag(blob).1;
    TagWord(blob, k);
    SearchMeans(blob, 5067, 4);
    SearchMeans(out, 5067, width);
    forall j | 0 <= j != k && 8 + 16 * j + 4 <= |blob| ensures TagAt(out, j) == TagAt(blob, j) {
      TagKept(blob, k, j);
    }
    forall tag | tag != 5067 && tag != 60000 ensures SearchAll(out, tag, width) == SearchAll(blob, tag, width) {
      SearchSame(out, blob, tag, width, 0, FromBe32(blob));
    }
  }
}
