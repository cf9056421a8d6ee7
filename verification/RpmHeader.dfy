/**
  The RPM header blobs the tests write (pytests/tests/test_distroverpkg.py) and a
  reader of that format.
 */
module RpmHeader {
  import opened Wrappers
  import opened Octets

  const LIMIT: nat := 0x1_0000_0000
  const INT32: nat := 4
  const STRING: nat := 6
  const STRING_ARRAY: nat := 8

  datatype Field = Field(tag: nat, kind: nat, count: nat, value: Bytes)
  datatype Entry = Entry(tag: nat, kind: nat, offset: nat, count: nat)

  // ---------------------------------------------------------------- writing

  /** `-len(data) % 4` before 32-bit integers. */
  function Pad(kind: nat, n: nat): (p: nat)
    ensures p < 4 && (kind == INT32 ==> (n + p) % 4 == 0) && (kind != INT32 ==> p == 0)
  {
    if kind == INT32 then (4 - n % 4) % 4 else 0
  }

  function Zeros(n: nat): (r: Bytes)
    ensures |r| == n
  {
    seq(n, _ => 0)
  }

  /** The data section of some fields. */
  function Data(fields: seq<Field>): Bytes {
    if fields == [] then []
    else
      var (init, f) := (fields[..|fields| - 1], fields[|fields| - 1]);
      Data(init) + Zeros(Pad(f.kind, |Data(init)|)) + f.value
  }

  /** Where field `k` starts in the data section. */
  function Offset(fields: seq<Field>, k: nat): nat
    requires k < |fields|
  {
    |Data(fields[..k])| + Pad(fields[k].kind, |Data(fields[..k])|)
  }

  function Index(fields: seq<Field>): (r: seq<Entry>)
    ensures |r| == |fields|
  {
    seq(|fields|, k requires 0 <= k < |fields| =>
      Entry(fields[k].tag, fields[k].kind, Offset(fields, k), fields[k].count))
  }

  predicate EntryFits(e: Entry) {
    e.tag < LIMIT && e.kind < LIMIT && e.offset < LIMIT && e.count < LIMIT
  }

  function WriteEntry(e: Entry): (r: Bytes)
    requires EntryFits(e)
    ensures |r| == 16
  {
    Be32(e.tag) + Be32(e.kind) + Be32(e.offset) + Be32(e.count)
  }

  function WriteIndex(entries: seq<Entry>): (r: Bytes)
    requires forall e :: e in entries ==> EntryFits(e)
    ensures |r| == 16 * |entries|
  {
    if entries == [] then [] else WriteIndex(entries[..|entries| - 1]) + WriteEntry(entries[|entries| - 1])
  }

  predicate Writable(fields: seq<Field>) {
    |fields| < LIMIT && |Data(fields)| < LIMIT && forall e :: e in Index(fields) ==> EntryFits(e)
  }

  /** The blob, or None where a number does not fit its four octets. */
  function Encode(fields: seq<Field>): Option<Bytes> {
    if Writable(fields) then
      Some(Be32(|fields|) + Be32(|Data(fields)|) + WriteIndex(Index(fields)) + Data(fields))
    else None
  }

  method HeaderBlob(fields: seq<Field>) returns (r: Option<Bytes>)
    ensures r == Encode(fields)
  {
    hide EntryFits;
    var indexes: seq<Entry> := [];
    var data: Bytes := [];
    for k := 0 to |fields|
      invariant data == Data(fields[..k])
      invariant |indexes| == k
      invariant forall i :: 0 <= i < k ==> indexes[i] == Index(fields)[i]
    {
      var f := fields[k];
      assert fields[..k + 1][..k] == fields[..k];
      if f.kind == INT32 {
        data := data + Zeros((4 - |data| % 4) % 4);
      } else {
        assert Zeros(0) == [] && data + [] == data;
      }
      indexes := indexes + [Entry(f.tag, f.kind, |data|, f.count)];
      data := data + f.value;
    }
    assert fields[..|fields|] == fields;
    assert indexes == Index(fields);
    if |fields| >= LIMIT || |data| >= LIMIT || exists e :: e in indexes && !EntryFits(e) {
      return None;
    }
    return Some(Be32(|indexes|) + Be32(|data|) + WriteIndex(indexes) + data);
  }

  // ---------------------------------------------------------------- layout

  lemma {:induction false} DataPrefix(fields: seq<Field>, k: nat)
    requires k <= |fields|
    ensures |Data(fields[..k])| <= |Data(fields)| && Data(fields)[..|Data(fields[..k])|] == Data(fields[..k])
    decreases |fields|
  {
    if k == |fields| {
      assert fields[..k] == fields;
    } else {
      var init := fields[..|fields| - 1];
      DataPrefix(init, k);
      assert init[..k] == fields[..k];
      assert Data(fields)[..|Data(init)|] == Data(init);
      assert Data(fields)[..|Data(fields[..k])|] == Data(init)[..|Data(fields[..k])|];
    }
  }

  lemma ExtentHere(fields: seq<Field>, k: nat)
    requires k < |fields|
    ensures |Data(fields[..k + 1])| == Offset(fields, k) + |fields[k].value| <= |Data(fields)|
    ensures Data(fields)[Offset(fields, k)..Offset(fields, k) + |fields[k].value|] == fields[k].value
  {
    hide Pad, Zeros;
    assert fields[..k + 1][..k] == fields[..k];
    var (before, upto) := (Data(fields[..k]), Data(fields[..k + 1]));
    assert upto == before + Zeros(Pad(fields[k].kind, |before|)) + fields[k].value;
    hide Data;
    DataPrefix(fields, k + 1);
    assert Data(fields)[Offset(fields, k)..|upto|] == Data(fields)[..|upto|][Offset(fields, k)..];
  }

  lemma ExtentOrder(fields: seq<Field>, k: nat, j: nat)
    requires k < j < |fields|
    ensures |Data(fields[..k + 1])| <= Offset(fields, j)
  {
    hide Data, Pad;
    DataPrefix(fields[..j], k + 1);
    assert fields[..j][..k + 1] == fields[..k + 1];
  }

  /** Integers are aligned; extents are in order, disjoint and in bounds, and hold the fields' values. */
  lemma Extents(fields: seq<Field>, k: nat)
    requires k < |fields|
    ensures fields[k].kind == 4 ==> Offset(fields, k) % 4 == 0
    ensures Offset(fields, k) + |fields[k].value| <= |Data(fields)|
    ensures Data(fields)[Offset(fields, k)..Offset(fields, k) + |fields[k].value|] == fields[k].value
    ensures forall j :: k < j < |fields| ==> Offset(fields, k) + |fields[k].value| <= Offset(fields, j)
  {
    Aligned(fields, k);
    hide Data, Offset;
    ExtentHere(fields, k);
    forall j | k < j < |fields| ensures Offset(fields, k) + |fields[k].value| <= Offset(fields, j) {
      ExtentOrder(fields, k, j);
    }
  }

  lemma Aligned(fields: seq<Field>, k: nat)
    requires k < |fields|
    ensures fields[k].kind == 4 ==> Offset(fields, k) % 4 == 0
  {
    hide Data;
  }

  lemma {:induction false} IndexAt(entries: seq<Entry>, k: nat)
    requires k < |entries| && forall e :: e in entries ==> EntryFits(e)
    ensures entries[k] in entries
    ensures WriteIndex(entries)[16 * k..16 * k + 16] == WriteEntry(entries[k])
  {
    hide WriteEntry, EntryFits;
    var last := |entries| - 1;
    if k < last {
      IndexAt(entries[..last], k);
      assert WriteIndex(entries)[16 * k..16 * k + 16] == WriteIndex(entries[..last])[16 * k..16 * k + 16];
    }
  }

  // ---------------------------------------------------------------- reading

  /** Section of an entry in a blob, as `struct.unpack_from` reads it. */
  function ReadEntry(blob: Bytes, k: nat): Entry
    requires 8 + 16 * k + 16 <= |blob|
  {
    var at := 8 + 16 * k;
    Entry(FromBe32(blob[at..]), FromBe32(blob[at + 4..]), FromBe32(blob[at + 8..]), FromBe32(blob[at + 12..]))
  }

  lemma EntryRoundTrip(e: Entry, before: Bytes, after: Bytes, k: nat)
    requires EntryFits(e) && |before| == 8 + 16 * k
    ensures ReadEntry(before + WriteEntry(e) + after, k) == e
  {
    hide Be32, FromBe32;
    var blob, at := before + WriteEntry(e) + after, |before|;
    assert blob[at..] == Be32(e.tag) + (Be32(e.kind) + Be32(e.offset) + Be32(e.count) + after);
    assert blob[at + 4..] == Be32(e.kind) + (Be32(e.offset) + Be32(e.count) + after);
    assert blob[at + 8..] == Be32(e.offset) + (Be32(e.count) + after);
    assert blob[at + 12..] == Be32(e.count) + after;
    Be32Inverts(e.tag, Be32(e.kind) + Be32(e.offset) + Be32(e.count) + after);
    Be32Inverts(e.kind, Be32(e.offset) + Be32(e.count) + after);
    Be32Inverts(e.offset, Be32(e.count) + after);
    Be32Inverts(e.count, after);
  }

  lemma Regroup(prefix: Bytes, index: Bytes, data: Bytes, i: nat, n: nat)
    requires i + n <= |index|
    ensures prefix + index + data == (prefix + index[..i]) + index[i..i + n] + (index[i + n..] + data)
  {
    assert index == index[..i] + index[i..i + n] + index[i + n..];
  }

  lemma EntryOf(prefix: Bytes, entries: seq<Entry>, data: Bytes, k: nat)
    requires |prefix| == 8 && k < |entries| && forall e :: e in entries ==> EntryFits(e)
    ensures ReadEntry(prefix + WriteIndex(entries) + data, k) == entries[k]
  {
    hide WriteEntry, WriteIndex, EntryFits, ReadEntry;
    IndexAt(entries, k);
    var index := WriteIndex(entries);
    Regroup(prefix, index, data, 16 * k, 16);
    EntryRoundTrip(entries[k], prefix + index[..16 * k], index[16 * k + 16..] + data, k);
  }

  /** The prefix of a blob holds the true counts, and each entry reads back. */
  lemma BlobParts(fields: seq<Field>, blob: Bytes)
    requires Encode(fields) == Some(blob)
    ensures |blob| == 8 + 16 * |fields| + |Data(fields)|
    ensures FromBe32(blob) == |fields| && FromBe32(blob[4..]) == |Data(fields)|
    ensures blob[8 + 16 * |fields|..] == Data(fields)
    ensures forall k :: 0 <= k < |fields| ==> ReadEntry(blob, k) == Index(fields)[k]
  {
    hide Be32, FromBe32, EntryFits, Data, WriteIndex, ReadEntry, Index;
    var (a, b) := (Be32(|fields|), Be32(|Data(fields)|));
    var rest := WriteIndex(Index(fields)) + Data(fields);
    assert blob == a + (b + rest);
    Be32Inverts(|fields|, b + rest);
    assert blob[4..] == b + rest;
    Be32Inverts(|Data(fields)|, rest);
    forall k | 0 <= k < |fields| ensures ReadEntry(blob, k) == Index(fields)[k] {
      EntryOf(a + b, Index(fields), Data(fields), k);
    }
  }

  /** The integer of four octets in a blob. */
  predicate Holds(blob: Bytes, at: nat, n: int) {
    at + 4 <= |blob|
    && n == (blob[at] as int) * 0x1000000 + (blob[at + 1] as int) * 0x10000
            + (blob[at + 2] as int) * 0x100 + blob[at + 3] as int
  }

  /** Which headers are written: all numbers fit four octets. */
  lemma BlobWritten(fields: seq<Field>)
    ensures Encode(fields).Some? <==>
      && |fields| < 0x1_0000_0000 && |Data(fields)| < 0x1_0000_0000
      && forall k :: 0 <= k < |fields| ==>
           fields[k].tag < 0x1_0000_0000 && fields[k].kind < 0x1_0000_0000 && fields[k].count < 0x1_0000_0000
  {
    hide Data, Offset, WriteIndex;
    var index := Index(fields);
    forall k | 0 <= k < |fields| && |Data(fields)| < 0x1_0000_0000
      ensures Offset(fields, k) < 0x1_0000_0000 && index[k] in index
    {
      Extents(fields, k);
    }
    forall k | 0 <= k < |fields| ensures index[k] in index && index[k].tag == fields[k].tag
      && index[k].kind == fields[k].kind && index[k].count == fields[k].count && index[k].offset == Offset(fields, k)
    {
    }
  }

  lemma HoldsIs(blob: Bytes, at: nat, n: nat)
    requires at + 4 <= |blob| && FromBe32(blob[at..]) == n
    ensures Holds(blob, at, n)
  {
  }

  /**
    The octets of a blob: two counts, sixteen octets a field - tag, kind, offset and
    count in that order - and behind them the values, each at the offset its entry gives.
   */
  lemma BlobLayout(fields: seq<Field>, blob: Bytes, k: nat)
    requires Encode(fields) == Some(blob) && k < |fields|
    ensures var (n, f, from) := (|fields|, fields[k], 8 + 16 * |fields| + Offset(fields, k));
      && Holds(blob, 0, n) && Holds(blob, 4, |blob| - 8 - 16 * n)
      && Holds(blob, 8 + 16 * k, f.tag) && Holds(blob, 12 + 16 * k, f.kind)
      && Holds(blob, 16 + 16 * k, from - 8 - 16 * n) && Holds(blob, 20 + 16 * k, f.count)
      && from + |f.value| <= |blob| && blob[from..from + |f.value|] == f.value
  {
    hide FromBe32, Data, Offset, EntryFits, WriteIndex, Be32, Holds;
    BlobParts(fields, blob);
    assert ReadEntry(blob, k) == Index(fields)[k];
    assert blob[0..] == blob;
    HoldsIs(blob, 0, |fields|);
    HoldsIs(blob, 4, |Data(fields)|);
    HoldsIs(blob, 8 + 16 * k, fields[k].tag);
    HoldsIs(blob, 12 + 16 * k, fields[k].kind);
    HoldsIs(blob, 16 + 16 * k, Offset(fields, k));
    HoldsIs(blob, 20 + 16 * k, fields[k].count);
    Extents(fields, k);
    var start := 8 + 16 * |fields|;
    assert blob[start..][Offset(fields, k)..Offset(fields, k) + |fields[k].value|]
        == blob[start + Offset(fields, k)..start + Offset(fields, k) + |fields[k].value|];
  }

  /** Between the values stand only as many zeros as align an integer field, and none at the end. */
  lemma BlobGaps(fields: seq<Field>, k: nat)
    requires k < |fields|
    ensures var from := if k == 0 then 0 else Offset(fields, k - 1) + |fields[k - 1].value|;
      && from <= Offset(fields, k) <= |Data(fields)| && Offset(fields, k) - from < 4
      && (fields[k].kind != 4 ==> Offset(fields, k) == from)
      && forall i :: from <= i < Offset(fields, k) ==> Data(fields)[i] == 0
    ensures k == |fields| - 1 ==> Offset(fields, k) + |fields[k].value| == |Data(fields)|
  {
    hide Data;
    Extents(fields, k);
    var before := Data(fields[..k]);
    if k > 0 {
      ExtentHere(fields, k - 1);
    } else {
      assert fields[..0] == [];
      NoData();
    }
    ExtentHere(fields, k);
    assert fields[..|fields|] == fields;
    DataPrefix(fields, k + 1);
    DataNext(fields, k);
  }

  lemma NoData()
    ensures Data([]) == []
  {
  }

  lemma DataNext(fields: seq<Field>, k: nat)
    requires k < |fields|
    ensures Data(fields[..k + 1])
      == Data(fields[..k]) + Zeros(Pad(fields[k].kind, |Data(fields[..k])|)) + fields[k].value
  {
    assert fields[..k + 1][..k] == fields[..k];
  }

  // ---------------------------------------------------------------- typed values

  datatype Value = Text(s: Bytes) | Texts(ss: seq<Bytes>) | Ints(ns: seq<nat>)
  datatype Tagged = Tagged(tag: nat, value: Value)

  /** `_string`, `_string_array` and `_int32_array` */
  function StringArray(ss: seq<Bytes>): Bytes {
    if ss == [] then [] else ss[0] + [0] + StringArray(ss[1..])
  }

  function Int32Array(ns: seq<nat>): Option<Bytes> {
    if ns == [] then Some([])
    else if ns[0] >= LIMIT then None
    else
      match Int32Array(ns[1..])
      case None => None
      case Some(tail) => Some(Be32(ns[0]) + tail)
  }

  function ToField(t: Tagged): Option<Field> {
    match t.value
    case Text(s) => Some(Field(t.tag, STRING, 1, s + [0]))
    case Texts(ss) => Some(Field(t.tag, STRING_ARRAY, |ss|, StringArray(ss)))
    case Ints(ns) =>
      match Int32Array(ns)
      case None => None
      case Some(octets) => Some(Field(t.tag, INT32, |ns|, octets))
  }

  /** The kinds, counts and octets of the three typed values. */
  lemma TypedFields(tag: nat, s: Bytes, ss: seq<Bytes>, ns: seq<nat>)
    ensures ToField(Tagged(tag, Text(s))) == Some(Field(tag, 6, 1, s + [0]))
    ensures ToField(Tagged(tag, Texts(ss))) == Some(Field(tag, 8, |ss|, StringArray(ss)))
    ensures StringArray([]) == [] && StringArray([s] + ss) == s + [0] + StringArray(ss)
    ensures match ToField(Tagged(tag, Ints(ns)))
      case None => exists k :: 0 <= k < |ns| && ns[k] >= 0x1_0000_0000
      case Some(f) =>
        && f.tag == tag && f.kind == 4 && f.count == |ns| && |f.value| == 4 * |ns|
        && forall k :: 0 <= k < |ns| ==> Holds(f.value, 4 * k, ns[k])
  {
    assert ([s] + ss)[1..] == ss;
    IntOctets(ns);
  }

  lemma {:induction false} IntOctets(ns: seq<nat>)
    ensures match Int32Array(ns)
      case None => exists k :: 0 <= k < |ns| && ns[k] >= 0x1_0000_0000
      case Some(bs) => |bs| == 4 * |ns| && forall k :: 0 <= k < |ns| ==> Holds(bs, 4 * k, ns[k])
  {
    hide Holds, Be32;
    if ns != [] {
      IntOctets(ns[1..]);
      match Int32Array(ns[1..])
      case None =>
        var k :| 0 <= k < |ns| - 1 && ns[1..][k] >= 0x1_0000_0000;
        assert ns[k + 1] >= 0x1_0000_0000;
      case Some(tail) =>
        if ns[0] < 0x1_0000_0000 {
          var bs := Int32Array(ns).value;
          forall k | 0 <= k < |ns| ensures Holds(bs, 4 * k, ns[k]) {
            if k == 0 {
              Be32Holds(ns[0], tail);
            } else {
              HoldsBehind(Be32(ns[0]), tail, 4 * (k - 1), ns[1..][k - 1]);
            }
          }
        }
    }
  }

  lemma Be32Holds(n: nat, rest: Bytes)
    requires n < 0x1_0000_0000
    ensures Holds(Be32(n) + rest, 0, n)
  {
    hide Be32, FromBe32;
    Be32Inverts(n, rest);
    assert (Be32(n) + rest)[0..] == Be32(n) + rest;
    HoldsIs(Be32(n) + rest, 0, n);
  }

  lemma HoldsBehind(a: Bytes, b: Bytes, at: nat, n: nat)
    requires |a| == 4 && Holds(b, at, n)
    ensures Holds(a + b, 4 + at, n)
  {
    var c := a + b;
    assert c[4 + at] == b[at] && c[4 + at + 1] == b[at + 1] && c[4 + at + 2] == b[at + 2] && c[4 + at + 3] == b[at + 3];
  }

  function ToFields(ts: seq<Tagged>): (r: Option<seq<Field>>)
    ensures r.Some? ==> |r.value| == |ts|
  {
    if ts == [] then Some([])
    else
      match (ToFields(ts[..|ts| - 1]), ToField(ts[|ts| - 1]))
      case (Some(init), Some(f)) => Some(init + [f])
      case _ => None
  }

  /** The header of typed fields; the tests' header has a version, names, flags and versions. */
  function Header(ts: seq<Tagged>): Option<Bytes> {
    match ToFields(ts) case None => None case Some(fields) => Encode(fields)
  }

  function ReadString(bs: Bytes): Option<(Bytes, Bytes)> {
    if bs == [] then None
    else if bs[0] == 0 then Some(([], bs[1..]))
    else
      match ReadString(bs[1..])
      case None => None
      case Some((s, rest)) => Some(([bs[0]] + s, rest))
  }

  function ReadStrings(bs: Bytes, count: nat): Option<seq<Bytes>>
    decreases count
  {
    if count == 0 then Some([])
    else
      match ReadString(bs)
      case None => None
      case Some((s, rest)) =>
        match ReadStrings(rest, count - 1)
        case None => None
        case Some(tail) => Some([s] + tail)
  }

  function ReadInts(bs: Bytes, count: nat): Option<seq<nat>> {
    if count == 0 then Some([])
    else if |bs| < 4 then None
    else
      match ReadInts(bs[4..], count - 1)
      case None => None
      case Some(tail) => Some([FromBe32(bs)] + tail)
  }

  function ReadValue(e: Entry, data: Bytes): Option<Value> {
    if e.offset > |data| then None
    else
      var bs := data[e.offset..];
      if e.kind == STRING then
        match ReadString(bs) case Some((s, _)) => Some(Text(s)) case None => None
      else if e.kind == STRING_ARRAY then
        match ReadStrings(bs, e.count) case Some(ss) => Some(Texts(ss)) case None => None
      else if e.kind == INT32 then
        match ReadInts(bs, e.count) case Some(ns) => Some(Ints(ns)) case None => None
      else None
  }

  /** The typed values of the first `n` entries. */
  function ReadFields(blob: Bytes, data: Bytes, n: nat): Option<seq<Tagged>>
    requires 8 + 16 * n <= |blob|
  {
    if n == 0 then Some([])
    else
      var e := ReadEntry(blob, n - 1);
      match (ReadFields(blob, data, n - 1), ReadValue(e, data))
      case (Some(init), Some(v)) => Some(init + [Tagged(e.tag, v)])
      case _ => None
  }

  function Decode(blob: Bytes): Option<seq<Tagged>> {
    if |blob| < 8 then None
    else
      var (n, size) := (FromBe32(blob), FromBe32(blob[4..]));
      if |blob| != 8 + 16 * n + size then None else ReadFields(blob, blob[8 + 16 * n..], n)
  }

  // ---------------------------------------------------------------- round trip

  predicate NulFree(s: Bytes) {
    0 !in s
  }

  predicate ValueNulFree(v: Value) {
    match v
    case Text(s) => NulFree(s)
    case Texts(ss) => forall i :: 0 <= i < |ss| ==> NulFree(ss[i])
    case Ints(_) => true
  }

  lemma {:induction false} StringReads(s: Bytes, rest: Bytes)
    requires NulFree(s)
    ensures ReadString(s + [0] + rest) == Some((s, rest))
  {
    var all := s + [0] + rest;
    if s == [] {
      assert all[1..] == rest;
    } else {
      assert s[0] in s && all[1..] == s[1..] + [0] + rest;
      StringReads(s[1..], rest);
      assert [s[0]] + s[1..] == s;
    }
  }

  lemma {:induction false} StringsRead(ss: seq<Bytes>, rest: Bytes)
    requires forall i :: 0 <= i < |ss| ==> NulFree(ss[i])
    ensures ReadStrings(StringArray(ss) + rest, |ss|) == Some(ss)
  {
    if ss != [] {
      assert StringArray(ss) + rest == ss[0] + [0] + (StringArray(ss[1..]) + rest);
      StringReads(ss[0], StringArray(ss[1..]) + rest);
      StringsRead(ss[1..], rest);
      assert [ss[0]] + ss[1..] == ss;
    }
  }

  lemma {:induction false} IntsRead(ns: seq<nat>, rest: Bytes)
    requires Int32Array(ns).Some?
    ensures ReadInts(Int32Array(ns).value + rest, |ns|) == Some(ns)
  {
    hide Be32, FromBe32;
    if ns != [] {
      var tail := Int32Array(ns[1..]).value;
      assert Int32Array(ns).value + rest == Be32(ns[0]) + (tail + rest);
      Be32Inverts(ns[0], tail + rest);
      IntsRead(ns[1..], rest);
      assert [ns[0]] + ns[1..] == ns;
    }
  }

  lemma ValueReads(t: Tagged, offset: nat, data: Bytes)
    requires ToField(t).Some? && ValueNulFree(t.value)
    requires var f := ToField(t).value;
      offset + |f.value| <= |data| && data[offset..offset + |f.value|] == f.value
    ensures ReadValue(Entry(t.tag, ToField(t).value.kind, offset, ToField(t).value.count), data) == Some(t.value)
  {
    var f := ToField(t).value;
    var rest := data[offset + |f.value|..];
    assert data[offset..] == f.value + rest;
    match t.value
    case Text(s) => StringReads(s, rest);
    case Texts(ss) => StringsRead(ss, rest);
    case Ints(ns) => IntsRead(ns, rest);
  }

  lemma {:induction false} FieldAt(ts: seq<Tagged>, k: nat)
    requires ToFields(ts).Some? && k < |ts|
    ensures ToField(ts[k]) == Some(ToFields(ts).value[k])
  {
    if k < |ts| - 1 {
      FieldAt(ts[..|ts| - 1], k);
    }
  }

  lemma {:induction false} FieldsRead(ts: seq<Tagged>, fields: seq<Field>, blob: Bytes, n: nat)
    requires ToFields(ts) == Some(fields) && Encode(fields) == Some(blob) && n <= |ts| && 8 + 16 * n <= |blob|
    requires forall k :: 0 <= k < |ts| ==> ValueNulFree(ts[k].value)
    ensures ReadFields(blob, Data(fields), n) == Some(ts[..n])
  {
    hide ToField, ReadValue, ReadEntry, Encode, ToFields, Data, Offset;
    if n > 0 {
      FieldsRead(ts, fields, blob, n - 1);
      BlobParts(fields, blob);
      FieldAt(ts, n - 1);
      Extents(fields, n - 1);
      TagOf(ts[n - 1]);
      ValueReads(ts[n - 1], Offset(fields, n - 1), Data(fields));
      assert ts[..n] == ts[..n - 1] + [ts[n - 1]];
    } else {
      assert ts[..0] == [];
    }
  }

  lemma TagOf(t: Tagged)
    requires ToField(t).Some?
    ensures ToField(t).value.tag == t.tag
  {
  }

  lemma {:induction false} ReadStringNulFree(bs: Bytes)
    requires ReadString(bs).Some?
    ensures NulFree(ReadString(bs).value.0)
  {
    if bs[0] != 0 {
      ReadStringNulFree(bs[1..]);
    }
  }

  lemma {:induction false} ReadStringsNulFree(bs: Bytes, count: nat)
    requires ReadStrings(bs, count).Some?
    ensures ValueNulFree(Texts(ReadStrings(bs, count).value))
    decreases count
  {
    if count > 0 {
      ReadStringNulFree(bs);
      var (s, rest) := ReadString(bs).value;
      ReadStringsNulFree(rest, count - 1);
      var tail := ReadStrings(rest, count - 1).value;
      assert ValueNulFree(Texts(tail));
      forall i | 0 <= i < count ensures i < |tail| + 1 ==> NulFree(([s] + tail)[i]) {
        assert i > 0 && i < |tail| + 1 ==> ([s] + tail)[i] == tail[i - 1];
      }
    }
  }

  lemma ReadValueNulFree(e: Entry, data: Bytes)
    requires ReadValue(e, data).Some?
    ensures ValueNulFree(ReadValue(e, data).value)
  {
    var bs := data[e.offset..];
    if e.kind == STRING {
      ReadStringNulFree(bs);
    } else if e.kind == STRING_ARRAY {
      ReadStringsNulFree(bs, e.count);
    }
  }

  lemma {:induction false} ReadFieldsNulFree(blob: Bytes, data: Bytes, n: nat)
    requires 8 + 16 * n <= |blob| && ReadFields(blob, data, n).Some?
    ensures var ts := ReadFields(blob, data, n).value;
      |ts| == n && forall k :: 0 <= k < n ==> ValueNulFree(ts[k].value)
  {
    hide ReadValue, ValueNulFree;
    if n > 0 {
      ReadFieldsNulFree(blob, data, n - 1);
      ReadValueNulFree(ReadEntry(blob, n - 1), data);
    }
  }

  /** The reader inverts the encoder exactly on the headers whose strings hold no NUL. */
  lemma HeaderRoundTrip(ts: seq<Tagged>)
    requires Header(ts).Some?
    ensures Decode(Header(ts).value) == Some(ts) <==> forall k :: 0 <= k < |ts| ==> ValueNulFree(ts[k].value)
  {
    hide ToFields, Encode, ReadFields, ValueNulFree, FromBe32, Data;
    var fields, blob := ToFields(ts).value, Header(ts).value;
    BlobParts(fields, blob);
    if forall k :: 0 <= k < |ts| ==> ValueNulFree(ts[k].value) {
      FieldsRead(ts, fields, blob, |ts|);
      assert ts[..|ts|] == ts;
    }
    if Decode(blob) == Some(ts) {
      ReadFieldsNulFree(blob, Data(fields), |fields|);
    }
  }

  /** The tests' own header: `_header_blob`. */
  function ProviderFields(version: Bytes, names: seq<Bytes>, flags: seq<nat>, versions: seq<Bytes>): seq<Tagged> {
    [Tagged(1001, Text(version)), Tagged(1047, Texts(names)), Tagged(1112, Ints(flags)), Tagged(1113, Texts(versions))]
  }

  lemma ProviderRoundTrip(version: Bytes, names: seq<Bytes>, flags: seq<nat>, versions: seq<Bytes>)
    requires Header(ProviderFields(version, names, flags, versions)).Some?
    requires NulFree(version)
    requires forall i :: 0 <= i < |names| ==> NulFree(names[i])
    requires forall i :: 0 <= i < |versions| ==> NulFree(versions[i])
    ensures Decode(Header(ProviderFields(version, names, flags, versions)).value)
         == Some([Tagged(1001, Text(version)), Tagged(1047, Texts(names)), Tagged(1112, Ints(flags)),
                  Tagged(1113, Texts(versions))])
  {
    hide Header, Decode;
    HeaderRoundTrip(ProviderFields(version, names, flags, versions));
  }
}
