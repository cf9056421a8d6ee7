/**
  The patches of RpmPatch on the headers `_header_blob` writes: each equals writing
  the header with one field changed.
 */
module RpmReencoding {
  import opened Wrappers
  import opened Octets
  import opened RpmHeader
  import opened RpmPatch

  /** The first field with this tag, or the number of fields. */
  function FirstTag(fields: seq<Field>, tag: nat, k: nat): (r: nat)
    requires k <= |fields|
    ensures k <= r <= |fields| && (r < |fields| ==> fields[r].tag == tag)
    ensures forall i :: k <= i < r ==> fields[i].tag != tag
    decreases |fields| - k
  {
    if k == |fields| || fields[k].tag == tag then k else FirstTag(fields, tag, k + 1)
  }

  lemma {:induction false} SearchFinds(fields: seq<Field>, blob: Bytes, tag: nat, width: nat, k: nat)
    requires Encode(fields) == Some(blob) && k <= |fields| && 4 <= width <= 16
    ensures Search(blob, tag, width, k, |fields|)
      == if FirstTag(fields, tag, k) < |fields| then Found(FirstTag(fields, tag, k)) else Missing
    decreases |fields| - k
  {
    hide FromBe32, Encode;
    BlobParts(fields, blob);
    if k < |fields| {
      assert ReadEntry(blob, k).tag == fields[k].tag;
      SearchFinds(fields, blob, tag, width, k + 1);
    }
  }

  lemma BlobSearch(fields: seq<Field>, blob: Bytes, tag: nat, width: nat)
    requires Encode(fields) == Some(blob) && 4 <= width <= 16
    ensures SearchAll(blob, tag, width)
      == if FirstTag(fields, tag, 0) < |fields| then Found(FirstTag(fields, tag, 0)) else Missing
  {
    hide FromBe32, Encode, Search, FirstTag;
    BlobParts(fields, blob);
    SearchFinds(fields, blob, tag, width, 0);
  }

  lemma {:induction false} SameData(fields: seq<Field>, k: nat, f: Field)
    requires k < |fields| && f.kind == fields[k].kind && f.value == fields[k].value
    ensures Data(fields[k := f]) == Data(fields)
  {
    var last := |fields| - 1;
    var changed := fields[k := f];
    if k < last {
      SameData(fields[..last], k, f);
      assert changed[..last] == fields[..last][k := f];
    } else {
      assert changed[..last] == fields[..last];
    }
  }

  lemma SameOffsets(fields: seq<Field>, k: nat, f: Field, j: nat)
    requires k < |fields| && j < |fields| && f.kind == fields[k].kind && |f.value| == |fields[k].value|
    ensures Offset(fields[k := f], j) == Offset(fields, j)
  {
    var changed := fields[k := f];
    if k < j {
      assert changed[..j] == fields[..j][k := f];
      SameLength(fields[..j], k, f);
    } else {
      assert changed[..j] == fields[..j];
    }
  }

  lemma {:induction false} SameLength(fields: seq<Field>, k: nat, f: Field)
    requires k < |fields| && f.kind == fields[k].kind && |f.value| == |fields[k].value|
    ensures |Data(fields[k := f])| == |Data(fields)|
  {
    var last := |fields| - 1;
    var changed := fields[k := f];
    if k < last {
      SameLength(fields[..last], k, f);
      assert changed[..last] == fields[..last][k := f];
    } else {
      assert changed[..last] == fields[..last];
    }
  }

  lemma IndexUpdate(fields: seq<Field>, k: nat, f: Field)
    requires k < |fields| && f.kind == fields[k].kind && |f.value| == |fields[k].value|
    ensures Index(fields[k := f]) == Index(fields)[k := Entry(f.tag, f.kind, Offset(fields, k), f.count)]
  {
    hide Offset;
    forall j | 0 <= j < |fields| ensures Offset(fields[k := f], j) == Offset(fields, j) {
      SameOffsets(fields, k, f, j);
    }
  }

  lemma {:induction false} WriteIndexUpdate(entries: seq<Entry>, k: nat, e: Entry)
    requires k < |entries| && EntryFits(e) && forall x :: x in entries ==> EntryFits(x)
    ensures forall x :: x in entries[k := e] ==> EntryFits(x)
    ensures WriteIndex(entries[k := e])
         == WriteIndex(entries)[..16 * k] + WriteEntry(e) + WriteIndex(entries)[16 * k + 16..]
  {
    hide EntryFits, WriteEntry;
    var last := |entries| - 1;
    var changed := entries[k := e];
    if k < last {
      WriteIndexUpdate(entries[..last], k, e);
      assert changed[..last] == entries[..last][k := e];
      var (a, b) := (WriteIndex(entries[..last]), WriteEntry(entries[last]));
      assert WriteIndex(entries) == a + b && WriteIndex(changed) == WriteIndex(changed[..last]) + b;
      assert (a + b)[..16 * k] == a[..16 * k] && (a + b)[16 * k + 16..] == a[16 * k + 16..] + b;
    } else {
      assert changed[..last] == entries[..last];
    }
  }

  /** Changing the tag or the count of one field changes its sixteen octets of index, and nothing else. */
  lemma EncodeUpdate(fields: seq<Field>, blob: Bytes, k: nat, f: Field)
    requires Encode(fields) == Some(blob) && k < |fields| && f.tag < 0x1_0000_0000 && f.count < 0x1_0000_0000
    requires f.kind == fields[k].kind && f.value == fields[k].value
    ensures EntryFits(Entry(f.tag, f.kind, Offset(fields, k), f.count))
    ensures Encode(fields[k := f])
      == Some(Overwrite(blob, 8 + 16 * k, WriteEntry(Entry(f.tag, f.kind, Offset(fields, k), f.count))))
  {
    hide Be32, Data, WriteIndex, WriteEntry, Offset, Index;
    SameData(fields, k, f);
    IndexUpdate(fields, k, f);
    var old_ := EntryAt(fields, k);
    var e := Entry(f.tag, f.kind, Offset(fields, k), f.count);
    WriteIndexUpdate(Index(fields), k, e);
    var (prefix, index, data) := (Be32(|fields|) + Be32(|Data(fields)|), WriteIndex(Index(fields)), Data(fields));
    assert blob == prefix + index + data;
    assert blob[..8 + 16 * k] == prefix + index[..16 * k];
    assert blob[8 + 16 * k + 16..] == index[16 * k + 16..] + data;
    assert prefix + (index[..16 * k] + WriteEntry(e) + index[16 * k + 16..]) + data
        == (prefix + index[..16 * k]) + WriteEntry(e) + (index[16 * k + 16..] + data);
  }

  lemma EntryAt(fields: seq<Field>, k: nat) returns (e: Entry)
    requires Writable(fields) && k < |fields|
    ensures e == Entry(fields[k].tag, fields[k].kind, Offset(fields, k), fields[k].count) && EntryFits(e)
  {
    e := Index(fields)[k];
    assert e in Index(fields);
  }

  // The octets of an entry, seen through the blob that holds it.
  lemma EntryOctets(fields: seq<Field>, blob: Bytes, k: nat)
    requires Encode(fields) == Some(blob) && k < |fields|
    ensures Writable(fields) && EntryFits(Index(fields)[k])
    ensures 8 + 16 * k + 16 <= |blob|
    ensures blob[8 + 16 * k..8 + 16 * k + 16] == WriteEntry(Index(fields)[k])
  {
    hide WriteEntry, EntryFits, Data;
    IndexAt(Index(fields), k);
    var index := WriteIndex(Index(fields));
    assert blob[8 + 16 * k..8 + 16 * k + 16] == index[16 * k..16 * k + 16];
  }

  lemma OverwriteWithin(blob: Bytes, at: nat, entry: Bytes, from: nat, octets: Bytes)
    requires at + |entry| <= |blob| && blob[at..at + |entry|] == entry && from + |octets| <= |entry|
    ensures Overwrite(blob, at + from, octets) == Overwrite(blob, at, Overwrite(entry, from, octets))
  {
    assert blob[at..at + |entry|][..from] == blob[at..at + from];
    assert blob[..at + from] == blob[..at] + entry[..from];
    assert blob[at + from + |octets|..] == entry[from + |octets|..] + blob[at + |entry|..];
  }

  /** The count patch re-encodes the header with the first 5070 field's count one higher, and nothing else. */
  lemma CountPatchReencodes(fields: seq<Field>, blob: Bytes)
    requires Encode(fields) == Some(blob)
    ensures var k := FirstTag(fields, 5070, 0);
      if k == |fields| then CorruptCount(blob) == (NotFound, blob)
      else if fields[k].count + 1 == 0x1_0000_0000 then CorruptCount(blob) == (Raised, blob)
      else
        CorruptCount(blob).0 == Patched
        && Encode(fields[k := fields[k].(count := fields[k].count + 1)]) == Some(CorruptCount(blob).1)
  {
    hide FromBe32, Be32, Search, FirstTag, Encode, Data, Offset;
    BlobSearch(fields, blob, 5070, 4);
    var k := FirstTag(fields, 5070, 0);
    if k < |fields| {
      BlobParts(fields, blob);
      EntryOctets(fields, blob, k);
      var e := Index(fields)[k];
      assert ReadEntry(blob, k) == e;
      if e.count + 1 < 0x1_0000_0000 {
        var f := fields[k].(count := e.count + 1);
        EncodeUpdate(fields, blob, k, f);
        OverwriteWithin(blob, 8 + 16 * k, WriteEntry(e), 12, Be32(e.count + 1));
        assert Overwrite(WriteEntry(e), 12, Be32(e.count + 1)) == WriteEntry(e.(count := e.count + 1));
      }
    }
  }

  /** The hide patch re-encodes the header with the first 5067 field tagged 60000, and nothing else. */
  lemma HidePatchReencodes(fields: seq<Field>, blob: Bytes)
    requires Encode(fields) == Some(blob)
    ensures var k := FirstTag(fields, 5067, 0);
      if k == |fields| then HideTag(blob) == (NotFound, blob)
      else HideTag(blob).0 == Patched && Encode(fields[k := fields[k].(tag := 60000)]) == Some(HideTag(blob).1)
  {
    hide FromBe32, Be32, Search, FirstTag, Encode, Data, Offset;
    BlobSearch(fields, blob, 5067, 4);
    var k := FirstTag(fields, 5067, 0);
    if k < |fields| {
      EntryOctets(fields, blob, k);
      var e := Index(fields)[k];
      var f := fields[k].(tag := 60000);
      EncodeUpdate(fields, blob, k, f);
      OverwriteWithin(blob, 8 + 16 * k, WriteEntry(e), 0, Be32(60000));
      assert Overwrite(WriteEntry(e), 0, Be32(60000)) == WriteEntry(e.(tag := 60000));
    }
  }

  lemma DataLast(fields: seq<Field>)
    requires fields != []
    ensures var (init, f) := (fields[..|fields| - 1], fields[|fields| - 1]);
      Data(fields) == Data(init) + Zeros(Pad(f.kind, |Data(init)|)) + f.value
  {
  }

  lemma UpdateJoin(a: Bytes, z: Bytes, v: Bytes, at: nat, x: Byte)
    requires at < |a| + |z| + |v|
    ensures at < |a| ==> a[at := x] + z + v == (a + z + v)[at := x]
    ensures at >= |a| + |z| ==> a + z + v[at - |a| - |z| := x] == (a + z + v)[at := x]
  {
  }

  lemma {:induction false} DataUpdate(fields: seq<Field>, k: nat, state: Byte)
    requires k < |fields| && fields[k].value != []
    ensures Offset(fields, k) < |Data(fields)|
    ensures Data(fields[k := fields[k].(value := fields[k].value[0 := state])])
         == Data(fields)[Offset(fields, k) := state]
  {
    hide Pad, Zeros, Data, Offset;
    Extents(fields, k);
    var last := |fields| - 1;
    var f := fields[k].(value := fields[k].value[0 := state]);
    var changed, init := fields[k := f], fields[..last];
    var zeros := Zeros(Pad(fields[last].kind, |Data(init)|));
    DataLast(fields);
    DataLast(changed);
    UpdateJoin(Data(init), zeros, fields[last].value, Offset(fields, k), state);
    OffsetPrefix(fields, k);
    if k < last {
      DataUpdate(init, k, state);
      assert changed[..last] == init[k := f];
    } else {
      assert changed[..last] == init;
    }
  }

  lemma OffsetPrefix(fields: seq<Field>, k: nat)
    requires k < |fields|
    ensures k < |fields| - 1 ==> Offset(fields[..|fields| - 1], k) == Offset(fields, k)
    ensures k == |fields| - 1 ==>
      Offset(fields, k) == |Data(fields[..k])| + |Zeros(Pad(fields[k].kind, |Data(fields[..k])|))|
  {
    hide Data, Pad;
    if k < |fields| - 1 {
      assert fields[..|fields| - 1][..k] == fields[..k];
    }
  }

  /**
    The state patch re-encodes the header with the first octet of the first 1029
    field's value replaced, and nothing else; a field without octets has none to patch.
   */
  lemma StatePatchReencodes(fields: seq<Field>, blob: Bytes, state: int)
    requires Encode(fields) == Some(blob)
    ensures var k := FirstTag(fields, 1029, 0);
      && (k == |fields| ==> SetState(blob, state) == (NotFound, blob))
      && (!(0 <= state < 256) && k < |fields| ==> SetState(blob, state) == (Raised, blob))
      && (k < |fields| && 0 <= state < 256 && fields[k].value != [] ==>
            SetState(blob, state).0 == Patched
            && Encode(fields[k := fields[k].(value := fields[k].value[0 := state])]) == Some(SetState(blob, state).1))
  {
    hide FromBe32, Be32, Search, FirstTag, Data, Offset, WriteIndex, EntryFits, Index;
    BlobSearch(fields, blob, 1029, 12);
    var k := FirstTag(fields, 1029, 0);
    BlobParts(fields, blob);
    if k < |fields| && 0 <= state < 256 && fields[k].value != [] {
      var e := EntryAt(fields, k);
      IndexEntry(fields, k);
      var f := fields[k].(value := fields[k].value[0 := state]);
      var changed := fields[k := f];
      DataUpdate(fields, k, state);
      IndexUpdate(fields, k, f);
      assert Index(fields)[k := e] == Index(fields);
      var at := 8 + 16 * |fields| + e.offset;
      var data := Data(fields);
      var front := blob[..8 + 16 * |fields|];
      assert blob == front + data;
      assert Overwrite(blob, at, [state]) == front + data[e.offset := state];
      assert front == Be32(|fields|) + Be32(|data|) + WriteIndex(Index(fields));
    }
  }

  /**
    On a field without octets the state patch writes past it, or is refused at the end
    of the blob.  It changes another field iff that field starts at the very same place.
   */
  lemma EmptyStatePatch(fields: seq<Field>, blob: Bytes, state: Byte)
    requires Encode(fields) == Some(blob)
    requires FirstTag(fields, 1029, 0) < |fields| && fields[FirstTag(fields, 1029, 0)].value == []
    ensures var k := FirstTag(fields, 1029, 0);
      var at := 8 + 16 * |fields| + Offset(fields, k);
      var out := SetState(blob, state).1;
      && (at >= |blob| ==> SetState(blob, state) == (Raised, blob))
      && (at < |blob| ==>
            && SetState(blob, state) == (Patched, blob[at := state])
            && forall j :: 0 <= j < |fields| ==>
                 var from := 8 + 16 * |fields| + Offset(fields, j);
                 && from + |fields[j].value| <= |blob|
                 && (out[from..from + |fields[j].value|] != fields[j].value <==> Hit(fields, k, j, state)))
  {
    hide FromBe32, Be32, Search, FirstTag, Data, Offset, WriteIndex, EntryFits, Index, Encode, SearchAll, Overwrite;
    var k := FirstTag(fields, 1029, 0);
    BlobSearch(fields, blob, 1029, 12);
    SearchAllFound(blob, 1029, 12);
    BlobParts(fields, blob);
    IndexEntry(fields, k);
    assert ReadEntry(blob, k).offset == Offset(fields, k);
    var at := 8 + 16 * |fields| + Offset(fields, k);
    if at < |blob| {
      OneOctet(blob, at, state);
      forall j | 0 <= j < |fields|
        ensures var from := 8 + 16 * |fields| + Offset(fields, j);
          && from + |fields[j].value| <= |blob|
          && (blob[at := state][from..from + |fields[j].value|] != fields[j].value <==> Hit(fields, k, j, state))
      {
        HitIs(fields, blob, k, j, at, state);
      }
    }
  }

  lemma OneOctet(blob: Bytes, at: nat, x: Byte)
    requires at < |blob|
    ensures Overwrite(blob, at, [x]) == blob[at := x]
  {
  }

  /** Field `j` starts where the empty field `k` stands, with another octet. */
  predicate Hit(fields: seq<Field>, k: nat, j: nat, state: Byte)
    requires k < |fields| && j < |fields|
  {
    k < j && Offset(fields, j) == Offset(fields, k) && fields[j].value != [] && fields[j].value[0] != state
  }

  lemma HitIs(fields: seq<Field>, blob: Bytes, k: nat, j: nat, at: nat, state: Byte)
    requires k < |fields| && j < |fields| && fields[k].value == []
    requires |blob| == 8 + 16 * |fields| + |Data(fields)| && blob[8 + 16 * |fields|..] == Data(fields)
    requires at == 8 + 16 * |fields| + Offset(fields, k) < |blob|
    ensures var from := 8 + 16 * |fields| + Offset(fields, j);
      && from + |fields[j].value| <= |blob|
      && (blob[at := state][from..from + |fields[j].value|] != fields[j].value <==> Hit(fields, k, j, state))
  {
    hide Data, Offset;
    Extents(fields, k);
    Extents(fields, j);
    var (start, from, v) := (8 + 16 * |fields|, 8 + 16 * |fields| + Offset(fields, j), fields[j].value);
    assert blob[start..][Offset(fields, j)..Offset(fields, j) + |v|] == blob[from..from + |v|];
    var slice := blob[at := state][from..from + |v|];
    if from <= at < from + |v| {
      assert slice[at - from] == state && v[at - from] == blob[at];
      assert at == from;
      assert v[0] == state ==> slice == v;
    } else {
      assert slice == blob[from..from + |v|];
    }
  }

  /** The octets of a value as `_string`, `_string_array` and `_int32_array` write them. */
  function Written(v: Value): Option<Bytes> {
    match ToField(Tagged(0, v)) case None => None case Some(f) => Some(f.value)
  }

  lemma {:induction false} StringWritten(bs: Bytes)
    requires ReadString(bs).Some?
    ensures var (s, rest) := ReadString(bs).value; bs == s + [0] + rest
  {
    if bs[0] != 0 {
      StringWritten(bs[1..]);
    }
  }

  lemma {:induction false} StringsWritten(bs: Bytes, count: nat)
    requires ReadStrings(bs, count).Some?
    ensures |ReadStrings(bs, count).value| == count && StringArray(ReadStrings(bs, count).value) <= bs
    decreases count
  {
    if count > 0 {
      StringWritten(bs);
      var (s, rest) := ReadString(bs).value;
      StringsWritten(rest, count - 1);
      var tail := ReadStrings(rest, count - 1).value;
      assert bs == s + [0] + rest && rest == StringArray(tail) + rest[|StringArray(tail)|..];
      assert bs == (s + [0] + StringArray(tail)) + rest[|StringArray(tail)|..];
    }
  }

  lemma {:induction false} IntsWritten(bs: Bytes, count: nat)
    requires ReadInts(bs, count).Some?
    ensures var ns := ReadInts(bs, count).value;
      |ns| == count && Int32Array(ns).Some? && Int32Array(ns).value <= bs
    decreases count
  {
    hide FromBe32, Be32;
    if count > 0 {
      FromBe32Inverts(bs);
      IntsWritten(bs[4..], count - 1);
      var tail := Int32Array(ReadInts(bs[4..], count - 1).value).value;
      assert bs == bs[..4] + bs[4..] && bs[4..] == tail + bs[4..][|tail|..];
      assert bs == (bs[..4] + tail) + bs[4..][|tail|..];
    }
  }

  /** A value was read from exactly the octets that write it. */
  lemma ReadIsWritten(e: Entry, data: Bytes)
    requires ReadValue(e, data).Some?
    ensures Written(ReadValue(e, data).value).Some?
    ensures var w := Written(ReadValue(e, data).value).value;
      e.offset + |w| <= |data| && data[e.offset..e.offset + |w|] == w
  {
    var bs := data[e.offset..];
    if e.kind == STRING {
      StringWritten(bs);
    } else if e.kind == STRING_ARRAY {
      StringsWritten(bs, e.count);
    } else {
      IntsWritten(bs, e.count);
    }
    var w := Written(ReadValue(e, data).value).value;
    assert w <= bs;
    assert data[e.offset..e.offset + |w|] == bs[..|w|];
  }

  lemma WrittenIsRead(e: Entry, v: Value, from: Bytes, data: Bytes)
    requires ReadValue(e, from) == Some(v) && Written(v).Some? && e.offset + |Written(v).value| <= |data|
    requires data[e.offset..e.offset + |Written(v).value|] == Written(v).value
    ensures ReadValue(e, data) == Some(v)
  {
    hide ReadString, ReadStrings, ReadInts, StringArray, Int32Array;
    ReadValueNulFree(e, from);
    if e.kind == STRING_ARRAY {
      StringsWritten(from[e.offset..], e.count);
    } else if e.kind == INT32 {
      IntsWritten(from[e.offset..], e.count);
    }
    ValueReads(Tagged(0, v), e.offset, data);
  }

  /** One octet of the data changes: a typed value changes iff it was read from that octet. */
  lemma ValueChanges(e: Entry, data: Bytes, at: nat, x: Byte)
    requires at < |data| && ReadValue(e, data).Some?
    ensures Written(ReadValue(e, data).value).Some?
    ensures ReadValue(e, data[at := x]) != ReadValue(e, data)
      <==> x != data[at] && e.offset <= at < e.offset + |Written(ReadValue(e, data).value).value|
  {
    hide ReadValue, Written;
    ReadIsWritten(e, data);
    var changed, v := data[at := x], ReadValue(e, data).value;
    var w := Written(v).value;
    if x == data[at] {
      assert changed == data;
    } else if e.offset <= at < e.offset + |w| {
      if ReadValue(e, changed).Some? {
        ReadIsWritten(e, changed);
      }
      assert changed[e.offset..e.offset + |w|][at - e.offset] == x;
      assert w[at - e.offset] == data[at];
    } else {
      assert changed[e.offset..e.offset + |w|] == data[e.offset..e.offset + |w|];
      WrittenIsRead(e, v, data, changed);
    }
  }

  lemma SearchAllFound(blob: Bytes, tag: nat, width: nat)
    requires 4 <= width <= 16 && SearchAll(blob, tag, width).Found?
    ensures |blob| >= 4 && 8 + 16 * SearchAll(blob, tag, width).k + width <= |blob|
  {
  }

  lemma IndexEntry(fields: seq<Field>, k: nat)
    requires k < |fields|
    ensures Index(fields)[k] == Entry(fields[k].tag, fields[k].kind, Offset(fields, k), fields[k].count)
  {
  }
}
