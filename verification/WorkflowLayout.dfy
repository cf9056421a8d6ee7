/**
  The documents of the workflow parser, defined apart from it (scripts/release-audit.py):
  one flat pass lists the lines with their columns, and a document parses to a value
  exactly if that value is the tree the columns give.
 */
module WorkflowLayout {
  import opened Wrappers
  import opened Text
  import opened Workflow
  import opened WorkflowRoundTrip
  import opened WorkflowScan

  // ---------------------------------------------------------------- the flat pass

  /** A key or a dash with its column, or a scalar. */
  datatype Event = Key(name: string, col: nat) | Item(col: nat) | Leaf(v: Value)

  /** Some events followed by what else is read, or None where reading failed. */
  function Then(head: seq<Event>, tail: Option<seq<Event>>): Option<seq<Event>> {
    match tail case None => None case Some(events) => Some(head + events)
  }

  /** One pass over the lines from `i`, with no notion of nesting; None if it meets a line it cannot read. */
  function Scan(p: WorkflowParser, i: nat): Option<seq<Event>>
    requires i <= |p.lines|
    decreases |p.lines| - i, 0
  {
    if i == |p.lines| then Some([])
    else if !p.Content(i) then Scan(p, i + 1)
    else
      match Indentation(p.lines[i])
      case Err(_) => None
      case Ok(col) =>
        LeadingBlanksBound(p.lines[i]);
        var text := p.lines[i][col..];
        if "- " <= text then Then([Item(col)], ScanItem(p, Strip(text[2..]), i + 1, col + 2))
        else ScanEntry(p, text, i + 1, col)
  }

  function ScanItem(p: WorkflowParser, raw: string, i: nat, col: nat): Option<seq<Event>>
    requires i <= |p.lines|
    decreases |p.lines| - i, 4
  {
    if ':' in raw then ScanEntry(p, raw, i, col) else ScanLeaf(p, raw, i)
  }

  function ScanEntry(p: WorkflowParser, text: string, i: nat, col: nat): Option<seq<Event>>
    requires i <= |p.lines|
    decreases |p.lines| - i, 3
  {
    match MappingOf(text, i, p.eval)
    case Err(_) => None
    case Ok((key, raw)) => Then([Key(key, col)], ScanValue(p, raw, i, col))
  }

  /** Whatever follows a key: a block scalar's lines are swallowed, nested lines are not. */
  function ScanValue(p: WorkflowParser, raw: string, i: nat, col: nat): Option<seq<Event>>
    requires i <= |p.lines|
    decreases |p.lines| - i, 2
  {
    if raw in HEADERS then
      match p.BlockLines(i, col, [])
      case Err(_) => None
      case Ok((output, next)) => Then([Leaf(Str(BlockText(raw, output)))], Scan(p, next))
    else if raw == "" then Scan(p, i)
    else ScanLeaf(p, raw, i)
  }

  function ScanLeaf(p: WorkflowParser, raw: string, i: nat): Option<seq<Event>>
    requires i <= |p.lines|
    decreases |p.lines| - i, 1
  {
    match ScalarOf(raw, p.eval)
    case Err(_) => None
    case Ok(v) => Then([Leaf(v)], Scan(p, i))
  }

  lemma ThenJoins(a: seq<Event>, b: seq<Event>, tail: Option<seq<Event>>)
    ensures Then(a, Then(b, tail)) == Then(a + b, tail)
    ensures Then([], tail) == tail
  {
    if tail.Some? {
      assert a + (b + tail.value) == a + b + tail.value;
      assert [] + tail.value == tail.value;
    }
  }

  // ---------------------------------------------------------------- the tree of a listing

  /** A block: its keys or dashes all stand at column `col`. */
  ghost predicate BlockLaid(v: Value, es: seq<Event>, col: nat)
    decreases |es|, 1
  {
    match v
    case Map(entries) => entries != [] && MapLaid(entries, es, col)
    case List(items) => items != [] && ListLaid(items, es, col)
    case _ => false
  }

  /** Each entry is its key and the listing of its value; no key comes twice. */
  ghost predicate MapLaid(entries: seq<Entry>, es: seq<Event>, col: nat)
    decreases |es|, 0
  {
    if entries == [] then es == []
    else
      && es != [] && es[0] == Key(entries[0].key, col) && entries[0].key !in Keys(entries[1..])
      && exists k :: 1 <= k <= |es| && ValueLaid(entries[0].value, es[1..k], col) && MapLaid(entries[1..], es[k..], col)
  }

  /** The value of a key at column `col`: a scalar, nothing, or a block further right. */
  ghost predicate ValueLaid(v: Value, es: seq<Event>, col: nat)
    decreases |es|, 2
  {
    es == [Leaf(v)] || (es == [] && v == Map([])) || exists c: nat :: col < c && BlockLaid(v, es, c)
  }

  ghost predicate ListLaid(items: seq<Value>, es: seq<Event>, col: nat)
    decreases |es|, 0
  {
    if items == [] then es == []
    else
      && es != [] && es[0] == Item(col)
      && exists k :: 1 <= k <= |es| && ItemLaid(items[0], es[1..k], col) && ListLaid(items[1..], es[k..], col)
  }

  /** An item of a list at column `col`: a scalar, or a mapping two columns further right. */
  ghost predicate ItemLaid(v: Value, es: seq<Event>, col: nat)
    decreases |es|, 2
  {
    es == [Leaf(v)] || (v.Map? && v.entries != [] && MapLaid(v.entries, es, col + 2))
  }

  ghost predicate Laid(v: Value, es: seq<Event>) {
    (es == [] && v == Map([])) || exists c: nat :: BlockLaid(v, es, c)
  }

  // ---------------------------------------------------------------- what is parsed is laid out so

  lemma {:induction false} ScanSkips(p: WorkflowParser, i: nat)
    requires i <= |p.lines|
    ensures Scan(p, i) == Scan(p, p.ContentAt(i))
    decreases |p.lines| - i
  {
    hide ScanItem, ScanEntry;
    if i < |p.lines| && !p.Content(i) {
      ScanSkips(p, i + 1);
    }
  }

  lemma ScanLine(p: WorkflowParser, i: nat, indent: nat, item: bool)
    requires p.StartsAt(i, indent, item)
    ensures !item ==> indent <= |p.lines[i]| && Scan(p, i) == ScanEntry(p, p.lines[i][indent..], i + 1, indent)
    ensures item ==>
      && indent + 2 <= |p.lines[i]|
      && Scan(p, i) == Then([Item(indent)], ScanItem(p, Strip(p.lines[i][indent + 2..]), i + 1, indent + 2))
  {
    hide ScanEntry, ScanItem;
    LeadingBlanksBound(p.lines[i]);
    if item {
      assert p.lines[i][indent..][2..] == p.lines[i][indent + 2..];
    }
  }

  lemma EntryScans(p: WorkflowParser, text: string, i: nat, col: nat)
    requires i <= |p.lines| && MappingOf(text, i, p.eval).Ok?
    ensures var (key, raw) := MappingOf(text, i, p.eval).value;
      ScanEntry(p, text, i, col) == Then([Key(key, col)], ScanValue(p, raw, i, col))
  {
    hide MappingOf, ScanValue;
  }

  lemma MapLays(e: Entry, rest: seq<Entry>, a: seq<Event>, b: seq<Event>, col: nat)
    requires ValueLaid(e.value, a, col) && MapLaid(rest, b, col) && e.key !in Keys(rest)
    ensures MapLaid([e] + rest, [Key(e.key, col)] + a + b, col)
  {
    var es := [Key(e.key, col)] + a + b;
    assert es[1..1 + |a|] == a && es[1 + |a|..] == b;
    assert ([e] + rest)[1..] == rest;
  }

  lemma ListLays(v: Value, rest: seq<Value>, a: seq<Event>, b: seq<Event>, col: nat)
    requires ItemLaid(v, a, col) && ListLaid(rest, b, col)
    ensures ListLaid([v] + rest, [Item(col)] + a + b, col)
  {
    var es := [Item(col)] + a + b;
    assert es[1..1 + |a|] == a && es[1 + |a|..] == b;
    assert ([v] + rest)[1..] == rest;
  }

  lemma NothingLaid(col: nat)
    ensures MapLaid([], [], col) && ListLaid([], [], col) && ValueLaid(Map([]), [], col)
  {
  }

  lemma LeafLaid(v: Value, col: nat)
    ensures ValueLaid(v, [Leaf(v)], col) && ItemLaid(v, [Leaf(v)], col)
  {
  }

  lemma {:induction false} BlockScans(p: WorkflowParser, i: nat, indent: nat) returns (es: seq<Event>)
    requires i <= |p.lines| && p.ContentAt(i) < |p.lines| && p.BlockAt(i, indent).Ok?
    ensures var (v, j) := p.BlockAt(i, indent).value;
      Scan(p, i) == Then(es, Scan(p, j)) && BlockLaid(v, es, indent)
    decreases |p.lines| - i, 2
  {
    hide WorkflowParser.MapAt, WorkflowParser.ListAt, Scan, MapLaid, ListLaid;
    ScanSkips(p, i);
    var at := p.ContentAt(i);
    if p.IsItem(p.lines[at], indent) {
      var items;
      items, es := ListScans(p, at, indent, []);
      assert [] + items == items;
    } else {
      var entries;
      entries, es := MapScans(p, at, indent, []);
      assert [] + entries == entries;
    }
  }

  lemma {:induction false} ValueScans(p: WorkflowParser, raw: string, i: nat, col: nat) returns (es: seq<Event>)
    requires i <= |p.lines| && p.ValueAt(raw, i, col).Ok?
    ensures var (v, j) := p.ValueAt(raw, i, col).value;
      ScanValue(p, raw, i, col) == Then(es, Scan(p, j)) && ValueLaid(v, es, col)
    decreases |p.lines| - i, 4
  {
    hide WorkflowParser.BlockAt, Scan, BlockText, WorkflowParser.BlockLines, BlockLaid, ScalarOf;
    var (v, j) := p.ValueAt(raw, i, col).value;
    es := [Leaf(v)];
    LeafLaid(v, col);
    if raw == "" {
      es := [];
      var child := p.ContentAt(i);
      ScanSkips(p, i);
      ThenJoins([], [], Scan(p, i));
      if child < |p.lines| && Indentation(p.lines[child]).value > col {
        es := BlockScans(p, child, Indentation(p.lines[child]).value);
      }
    }
  }

  lemma {:induction false} MapScans(p: WorkflowParser, i: nat, indent: nat, acc: seq<Entry>)
      returns (entries: seq<Entry>, es: seq<Event>)
    requires i <= |p.lines| && p.MapAt(i, indent, acc).Ok?
    ensures var (all, j) := p.MapAt(i, indent, acc).value;
      && all == acc + entries && Scan(p, i) == Then(es, Scan(p, j)) && MapLaid(entries, es, indent)
      && (p.StartsAt(i, indent, false) ==> entries != [])
    ensures forall e :: e in entries ==> e.key !in Keys(acc)
    decreases |p.lines| - i, 0
  {
    hide WorkflowParser.MapAt, WorkflowParser.ValueAt, WorkflowParser.StartsAt, Scan, ScanEntry, ScanValue, MappingOf;
    hide MapLaid, ValueLaid;
    ScanSkips(p, i);
    MapTakes(p, i, indent, acc);
    var at := p.ContentAt(i);
    ContentStays(p, i, indent);
    if p.StartsAt(at, indent, false) {
      ScanLine(p, at, indent, false);
      var text := p.lines[at][indent..];
      var (key, raw) := MappingOf(text, at + 1, p.eval).value;
      var a := ValueScans(p, raw, at + 1, indent);
      var (v, j) := p.ValueAt(raw, at + 1, indent).value;
      var e := Entry(key, v);
      var rest, b := MapScans(p, j, indent, acc + [e]);
      EntryScans(p, text, at + 1, indent);
      KeysAppend(acc, [e]);
      KeyAbsent(rest, key);
      MapLays(e, rest, a, b, indent);
      entries, es := [e] + rest, [Key(key, indent)] + a + b;
      assert acc + [e] + rest == acc + entries;
      var end := Scan(p, p.MapAt(i, indent, acc).value.1);
      ThenJoins(a, b, end);
      ThenJoins([Key(key, indent)], a + b, end);
      assert [Key(key, indent)] + (a + b) == es;
    } else {
      entries, es := [], [];
      NothingLaid(indent);
      assert acc + [] == acc;
      ThenJoins([], [], Scan(p, at));
    }
  }

  lemma ContentStays(p: WorkflowParser, i: nat, indent: nat)
    requires i <= |p.lines|
    ensures forall item :: p.StartsAt(i, indent, item) ==> p.ContentAt(i) == i
  {
  }

  lemma KeyAbsent(rest: seq<Entry>, key: string)
    requires forall e :: e in rest ==> e.key != key
    ensures key !in Keys(rest)
  {
  }

  lemma {:induction false} ListScans(p: WorkflowParser, i: nat, indent: nat, acc: seq<Value>)
      returns (items: seq<Value>, es: seq<Event>)
    requires i <= |p.lines| && p.ListAt(i, indent, acc).Ok?
    ensures var (all, j) := p.ListAt(i, indent, acc).value;
      && all == acc + items && Scan(p, i) == Then(es, Scan(p, j)) && ListLaid(items, es, indent)
      && (p.StartsAt(i, indent, true) ==> items != [])
    decreases |p.lines| - i, 0
  {
    hide WorkflowParser.ListAt, WorkflowParser.ItemAt, WorkflowParser.StartsAt, Scan, ScanItem, ListLaid, ItemLaid;
    ScanSkips(p, i);
    ListTakes(p, i, indent, acc);
    var at := p.ContentAt(i);
    ContentStays(p, i, indent);
    if p.StartsAt(at, indent, true) {
      ScanLine(p, at, indent, true);
      var raw := Strip(p.lines[at][indent + 2..]);
      var a := ItemScans(p, raw, at + 1, indent);
      var (v, j) := p.ItemAt(raw, at + 1, indent).value;
      var rest, b := ListScans(p, j, indent, acc + [v]);
      ListLays(v, rest, a, b, indent);
      items, es := [v] + rest, [Item(indent)] + a + b;
      assert acc + [v] + rest == acc + items;
      var end := Scan(p, p.ListAt(i, indent, acc).value.1);
      ThenJoins(a, b, end);
      ThenJoins([Item(indent)], a + b, end);
      assert [Item(indent)] + (a + b) == es;
    } else {
      items, es := [], [];
      NothingLaid(indent);
      assert acc + [] == acc;
      ThenJoins([], [], Scan(p, at));
    }
  }

  lemma {:induction false} ItemScans(p: WorkflowParser, raw: string, i: nat, indent: nat) returns (es: seq<Event>)
    requires i <= |p.lines| && p.ItemAt(raw, i, indent).Ok?
    ensures var (v, j) := p.ItemAt(raw, i, indent).value;
      ScanItem(p, raw, i, indent + 2) == Then(es, Scan(p, j)) && ItemLaid(v, es, indent)
    decreases |p.lines| - i, 5
  {
    hide WorkflowParser.ValueAt, WorkflowParser.MapAt, WorkflowParser.Continues, ScanValue, Scan, MappingOf, ScanEntry;
    hide MapLaid, ValueLaid;
    var (v, end) := p.ItemAt(raw, i, indent).value;
    if ':' in raw {
      var (key, text) := MappingOf(raw, i, p.eval).value;
      var a := ValueScans(p, text, i, indent + 2);
      var (first, j) := p.ValueAt(text, i, indent + 2).value;
      var e := Entry(key, first);
      EntryScans(p, raw, i, indent + 2);
      var rest: seq<Entry>, b: seq<Event> := [], [];
      NothingLaid(indent + 2);
      ThenJoins([], [], Scan(p, j));
      if p.Continues(j, indent + 2).value {
        var c := p.ContentAt(j);
        ScanSkips(p, j);
        rest, b := MapScans(p, c, indent + 2, []);
        assert [] + rest == rest;
      }
      OneKey(e, rest);
      MapLays(e, rest, a, b, indent + 2);
      es := [Key(key, indent + 2)] + a + b;
      ThenJoins(a, b, Scan(p, end));
      ThenJoins([Key(key, indent + 2)], a + b, Scan(p, end));
      assert [Key(key, indent + 2)] + (a + b) == es;
      assert v == Map([e] + rest) by { assert [e] + [] == [e]; }
    } else {
      es := [Leaf(v)];
      LeafLaid(v, indent);
    }
  }

  lemma OneKey(e: Entry, rest: seq<Entry>)
    ensures Keys([e]) * Keys(rest) == {} <==> e.key !in Keys(rest)
    ensures Keys([]) == {}
  {
    assert e in [e];
    assert Keys([e]) == {e.key};
    assert e.key in Keys(rest) ==> e.key in Keys([e]) * Keys(rest);
  }

  lemma ScanEnd(p: WorkflowParser)
    ensures Scan(p, |p.lines|) == Some([])
  {
  }

  /** What a document parses to is the tree of its listing. */
  lemma ParsedIsLaid(p: WorkflowParser) returns (es: seq<Event>)
    requires p.Document().Ok?
    ensures Scan(p, 0) == Some(es) && Laid(p.Document().value, es)
  {
    hide WorkflowParser.BlockAt, Scan, BlockLaid;
    ScanSkips(p, 0);
    ScanEnd(p);
    var at := p.ContentAt(0);
    es := [];
    if at < |p.lines| {
      es := BlockScans(p, at, Indentation(p.lines[at]).value);
      var j := p.BlockAt(at, Indentation(p.lines[at]).value).value.1;
      ScanSkips(p, j);
      assert es + [] == es;
    }
  }

  // ---------------------------------------------------------------- what is laid out so is parsed

  /** The listing ends, or goes on left of column `limit`. */
  predicate Left(es: seq<Event>, limit: int) {
    es == [] || (!es[0].Leaf? && es[0].col < limit)
  }

  /** The first event of a listing tells how the next content line starts. */
  lemma ScanHead(p: WorkflowParser, i: nat, es: seq<Event>)
    requires i <= |p.lines| && Scan(p, i) == Some(es)
    ensures var at := p.ContentAt(i);
      && Scan(p, at) == Some(es) && (at == |p.lines| <==> es == [])
      && (es != [] ==> !es[0].Leaf? && p.StartsAt(at, es[0].col, es[0].Item?))
  {
    hide Scan, ScanItem, ScanEntry;
    ScanSkips(p, i);
    HeadOf(p, p.ContentAt(i), es);
  }

  lemma HeadOf(p: WorkflowParser, at: nat, es: seq<Event>)
    requires at <= |p.lines| && (at < |p.lines| ==> p.Content(at)) && Scan(p, at) == Some(es)
    ensures at == |p.lines| <==> es == []
    ensures es != [] ==> !es[0].Leaf? && p.StartsAt(at, es[0].col, es[0].Item?)
  {
    hide ScanItem, ScanValue, MappingOf;
    if at < |p.lines| {
      LeadingBlanksBound(p.lines[at]);
    }
  }

  lemma TailOf(head: Event, rest: Option<seq<Event>>, es: seq<Event>)
    requires Then([head], rest) == Some(es)
    ensures es != [] && es[0] == head && rest == Some(es[1..])
  {
    assert ([head] + rest.value)[1..] == rest.value;
  }

  lemma BlockStarts(v: Value, es: seq<Event>, col: nat)
    requires BlockLaid(v, es, col)
    ensures es != [] && !es[0].Leaf? && es[0].col == col && (es[0].Item? <==> v.List?) && (v.Map? || v.List?)
  {
  }

  lemma BlockOf(v: Value, es: seq<Event>, col: nat) returns (c: nat)
    requires ValueLaid(v, es, col) && es != [] && !es[0].Leaf?
    ensures col < c && BlockLaid(v, es, c)
  {
    c :| col < c && BlockLaid(v, es, c);
  }

  /** How the listing of a value starts. */
  lemma ValueStarts(v: Value, es: seq<Event>, tail: seq<Event>, col: nat)
    requires ValueLaid(v, es, col) && Left(tail, col + 1)
    ensures es + tail != [] && (es + tail)[0].Leaf? ==> es == [Leaf(v)]
    ensures es == [] ==> v == Map([])
    ensures (es + tail)[|es|..] == tail
  {
    hide BlockLaid;
    if c: nat :| col < c && BlockLaid(v, es, c) {
      BlockStarts(v, es, c);
    }
  }

  lemma {:induction false} BlockBuilds(p: WorkflowParser, i: nat, col: nat, v: Value, es: seq<Event>, tail: seq<Event>)
    requires i <= |p.lines| && BlockLaid(v, es, col) && Scan(p, i) == Some(es + tail) && Left(tail, col)
    ensures p.ContentAt(i) < |p.lines| && p.BlockAt(i, col).Ok?
    ensures p.BlockAt(i, col).value.0 == v && Scan(p, p.BlockAt(i, col).value.1) == Some(tail)
    decreases |p.lines| - i, 2
  {
    hide WorkflowParser.MapAt, WorkflowParser.ListAt, Scan, MapLaid, ListLaid;
    ScanHead(p, i, es + tail);
    BlockStarts(v, es, col);
    var at := p.ContentAt(i);
    if v.Map? {
      assert Keys([]) == {};
      MapBuilds(p, at, col, [], v.entries, es, tail);
      assert [] + v.entries == v.entries;
    } else {
      ListBuilds(p, at, col, [], v.items, es, tail);
      assert [] + v.items == v.items;
    }
  }

  lemma {:induction false} ValueBuilds(
      p: WorkflowParser, raw: string, i: nat, col: nat, v: Value, es: seq<Event>, tail: seq<Event>)
    requires i <= |p.lines| && ValueLaid(v, es, col) && Left(tail, col + 1)
    requires ScanValue(p, raw, i, col) == Some(es + tail)
    ensures p.ValueAt(raw, i, col).Ok?
    ensures p.ValueAt(raw, i, col).value.0 == v && Scan(p, p.ValueAt(raw, i, col).value.1) == Some(tail)
    decreases |p.lines| - i, 4
  {
    hide WorkflowParser.BlockAt, Scan, BlockText, WorkflowParser.BlockLines, BlockLaid, ScalarOf, ValueLaid;
    ValueStarts(v, es, tail, col);
    if raw in HEADERS {
      var (output, next) := p.BlockLines(i, col, []).value;
      TailOf(Leaf(Str(BlockText(raw, output))), Scan(p, next), es + tail);
    } else if raw == "" {
      ScanHead(p, i, es + tail);
      var child := p.ContentAt(i);
      if es == [] {
        assert es + tail == tail;
      } else {
        assert (es + tail)[0] == es[0];
        var c := BlockOf(v, es, col);
        BlockStarts(v, es, c);
        ContentStays(p, child, c);
        BlockBuilds(p, child, c, v, es, tail);
      }
    } else {
      TailOf(Leaf(ScalarOf(raw, p.eval).value), Scan(p, i), es + tail);
    }
  }

  lemma MapSplit(entries: seq<Entry>, es: seq<Event>, col: nat) returns (a: seq<Event>, b: seq<Event>)
    requires MapLaid(entries, es, col) && entries != []
    ensures es == [Key(entries[0].key, col)] + a + b && entries[0].key !in Keys(entries[1..])
    ensures ValueLaid(entries[0].value, a, col) && MapLaid(entries[1..], b, col)
    ensures b != [] ==> b[0].Key? && b[0].col == col
    ensures b == [] <==> entries[1..] == []
  {
    hide ValueLaid;
    var k :| 1 <= k <= |es| && ValueLaid(entries[0].value, es[1..k], col) && MapLaid(entries[1..], es[k..], col);
    a, b := es[1..k], es[k..];
  }

  lemma ListSplit(items: seq<Value>, es: seq<Event>, col: nat) returns (a: seq<Event>, b: seq<Event>)
    requires ListLaid(items, es, col) && items != []
    ensures es == [Item(col)] + a + b && ItemLaid(items[0], a, col) && ListLaid(items[1..], b, col)
    ensures b != [] ==> b[0].Item? && b[0].col == col
  {
    hide ItemLaid;
    var k :| 1 <= k <= |es| && ItemLaid(items[0], es[1..k], col) && ListLaid(items[1..], es[k..], col);
    a, b := es[1..k], es[k..];
  }

  /** The loops start at the next content line, and stop at a line left of theirs. */
  lemma LoopEdges(p: WorkflowParser, i: nat, indent: nat, entries: seq<Entry>, items: seq<Value>)
    requires i <= |p.lines|
    ensures var at := p.ContentAt(i);
      && p.MapAt(i, indent, entries) == p.MapAt(at, indent, entries)
      && p.ListAt(i, indent, items) == p.ListAt(at, indent, items)
      && (Ends(p, at, indent) ==>
            p.MapAt(i, indent, entries) == Ok((entries, at)) && p.ListAt(i, indent, items) == Ok((items, at)))
  {
    hide WorkflowParser.ValueAt, WorkflowParser.ItemAt, MappingOf;
    ContentIdempotent(p, i);
  }

  predicate Ends(p: WorkflowParser, at: nat, indent: nat) {
    at == |p.lines| || (at < |p.lines| && Indentation(p.lines[at]).Ok? && Indentation(p.lines[at]).value < indent)
  }

  lemma {:induction false} ContentIdempotent(p: WorkflowParser, i: nat)
    requires i <= |p.lines|
    ensures p.ContentAt(p.ContentAt(i)) == p.ContentAt(i)
  {
  }

  lemma {:induction false} MapBuilds(
      p: WorkflowParser, i: nat, indent: nat, acc: seq<Entry>, entries: seq<Entry>, es: seq<Event>, tail: seq<Event>)
    requires i <= |p.lines| && MapLaid(entries, es, indent) && Scan(p, i) == Some(es + tail) && Left(tail, indent)
    requires forall e :: e in entries ==> e.key !in Keys(acc)
    ensures p.MapAt(i, indent, acc).Ok?
    ensures p.MapAt(i, indent, acc).value.0 == acc + entries
    ensures Scan(p, p.MapAt(i, indent, acc).value.1) == Some(tail)
    decreases |p.lines| - i, 0
  {
    hide WorkflowParser.MapAt, WorkflowParser.ValueAt, Scan, ScanEntry, ScanValue, MappingOf, MapLaid, ValueLaid, Keys;
    ScanHead(p, i, es + tail);
    LoopEdges(p, i, indent, acc, []);
    if entries == [] {
      MapLaidNothing(es, indent);
      assert es + tail == tail && acc + entries == acc;
    } else {
      var at := p.ContentAt(i);
      var a, b := MapSplit(entries, es, indent);
      var e := entries[0];
      var raw, j := EntryBuilds(p, at, indent, e, es + tail, a, b + tail);
      EntryKeys(acc, entries);
      MapStep(p, at, indent, acc, e.key, raw, e.value, j);
      MapBuilds(p, j, indent, acc + [e], entries[1..], b, tail);
      assert e == Entry(e.key, e.value) && acc + [e] + entries[1..] == acc + entries;
    }
  }

  lemma MapLaidNothing(es: seq<Event>, col: nat)
    requires MapLaid([], es, col) || ListLaid([], es, col)
    ensures es == []
  {
  }

  lemma EntryKeys(acc: seq<Entry>, entries: seq<Entry>)
    requires entries != [] && entries[0].key !in Keys(entries[1..])
    requires forall e :: e in entries ==> e.key !in Keys(acc)
    ensures entries[0].key !in Keys(acc)
    ensures forall e :: e in entries[1..] ==> e.key !in Keys(acc + [entries[0]])
  {
    assert entries[0] in entries;
    KeysAppend(acc, [entries[0]]);
    forall e | e in entries[1..] ensures e in entries && e.key in Keys(entries[1..]) { }
  }

  /** One entry of a mapping, from its line. */
  lemma {:induction false} EntryBuilds(
      p: WorkflowParser, at: nat, indent: nat, e: Entry, es: seq<Event>, a: seq<Event>, tail: seq<Event>)
      returns (raw: string, j: nat)
    requires p.StartsAt(at, indent, false) && Scan(p, at) == Some(es) && es == [Key(e.key, indent)] + a + tail
    requires ValueLaid(e.value, a, indent) && Left(tail, indent + 1)
    ensures indent <= |p.lines[at]| && MappingOf(p.lines[at][indent..], at + 1, p.eval) == Ok((e.key, raw))
    ensures at < j <= |p.lines| && p.ValueAt(raw, at + 1, indent) == Ok((e.value, j)) && Scan(p, j) == Some(tail)
    decreases |p.lines| - at - 1, 7
  {
    hide WorkflowParser.ValueAt, Scan, ScanValue, MappingOf, ValueLaid;
    ScanLine(p, at, indent, false);
    raw, j := TextBuilds(p, p.lines[at][indent..], at + 1, indent, e, es, a, tail);
  }

  lemma {:induction false} TextBuilds(
      p: WorkflowParser, text: string, i: nat, col: nat, e: Entry, es: seq<Event>, a: seq<Event>, tail: seq<Event>)
      returns (raw: string, j: nat)
    requires i <= |p.lines| && ScanEntry(p, text, i, col) == Some(es) && es == [Key(e.key, col)] + a + tail
    requires ValueLaid(e.value, a, col) && Left(tail, col + 1)
    ensures MappingOf(text, i, p.eval) == Ok((e.key, raw))
    ensures i <= j <= |p.lines| && p.ValueAt(raw, i, col) == Ok((e.value, j)) && Scan(p, j) == Some(tail)
    decreases |p.lines| - i, 5
  {
    hide WorkflowParser.ValueAt, Scan, ScanValue, MappingOf, ValueLaid;
    EntryScans(p, text, i, col);
    var (key, rest) := MappingOf(text, i, p.eval).value;
    TailOf(Key(key, col), ScanValue(p, rest, i, col), es);
    assert es[1..] == a + tail;
    raw := rest;
    ValueBuilds(p, raw, i, col, e.value, a, tail);
    j := p.ValueAt(raw, i, col).value.1;
  }

  lemma {:induction false} ListBuilds(
      p: WorkflowParser, i: nat, indent: nat, acc: seq<Value>, items: seq<Value>, es: seq<Event>, tail: seq<Event>)
    requires i <= |p.lines| && ListLaid(items, es, indent) && Scan(p, i) == Some(es + tail) && Left(tail, indent)
    ensures p.ListAt(i, indent, acc).Ok?
    ensures p.ListAt(i, indent, acc).value.0 == acc + items
    ensures Scan(p, p.ListAt(i, indent, acc).value.1) == Some(tail)
    decreases |p.lines| - i, 0
  {
    hide WorkflowParser.ListAt, WorkflowParser.ItemAt, Scan, ScanItem, ListLaid, ItemLaid;
    ScanHead(p, i, es + tail);
    LoopEdges(p, i, indent, [], acc);
    if items == [] {
      MapLaidNothing(es, indent);
      assert es + tail == tail && acc + items == acc;
    } else {
      var at := p.ContentAt(i);
      var a, b := ListSplit(items, es, indent);
      ScanLine(p, at, indent, true);
      var raw := Strip(p.lines[at][indent + 2..]);
      TailOf(Item(indent), ScanItem(p, raw, at + 1, indent + 2), es + tail);
      assert (es + tail)[1..] == a + (b + tail);
      ItemBuilds(p, raw, at + 1, indent, items[0], a, b + tail);
      var j := p.ItemAt(raw, at + 1, indent).value.1;
      ListStep(p, at, indent, acc, items[0], j);
      ListBuilds(p, j, indent, acc + [items[0]], items[1..], b, tail);
      assert acc + [items[0]] + items[1..] == acc + items;
    }
  }

  lemma {:induction false} ItemBuilds(
      p: WorkflowParser, raw: string, i: nat, indent: nat, v: Value, es: seq<Event>, tail: seq<Event>)
    requires i <= |p.lines| && ItemLaid(v, es, indent) && ScanItem(p, raw, i, indent + 2) == Some(es + tail)
    requires Left(tail, indent + 1)
    ensures p.ItemAt(raw, i, indent).Ok?
    ensures p.ItemAt(raw, i, indent).value.0 == v && Scan(p, p.ItemAt(raw, i, indent).value.1) == Some(tail)
    decreases |p.lines| - i, 6
  {
    hide WorkflowParser.ValueAt, WorkflowParser.MapAt, WorkflowParser.Continues, Scan, ScanEntry, ScalarOf, MappingOf;
    hide MapLaid, ValueLaid, Keys;
    if ':' in raw {
      EntryFirst(p, raw, i, indent + 2, es + tail);
      var entries := v.entries;
      var a, b := MapSplit(entries, es, indent + 2);
      var e := entries[0];
      assert es + tail == [Key(e.key, indent + 2)] + a + (b + tail);
      var text, j := TextBuilds(p, raw, i, indent + 2, e, es + tail, a, b + tail);
      assert e == Entry(e.key, e.value);
      OneKey(e, entries[1..]);
      ItemGoesOn(p, j, indent + 2, b + tail);
      if b != [] {
        MapBuilds(p, p.ContentAt(j), indent + 2, [], entries[1..], b, tail);
        assert [] + entries[1..] == entries[1..];
        assert [e] + entries[1..] == entries;
      } else {
        assert b + tail == tail && entries == [e];
      }
    } else {
      ItemStarts(v, es, tail, indent);
      TailOf(Leaf(ScalarOf(raw, p.eval).value), Scan(p, i), es + tail);
    }
  }

  lemma EntryFirst(p: WorkflowParser, text: string, i: nat, col: nat, es: seq<Event>)
    requires i <= |p.lines| && ScanEntry(p, text, i, col) == Some(es)
    ensures es != [] && es[0].Key? && es[0].col == col
  {
    hide MappingOf, ScanValue;
  }

  lemma ItemStarts(v: Value, es: seq<Event>, tail: seq<Event>, indent: nat)
    requires ItemLaid(v, es, indent)
    ensures es != [] && (es[0].Leaf? ==> es == [Leaf(v)]) && (es + tail)[0] == es[0] && (es + tail)[|es|..] == tail
  {
    hide ValueLaid;
  }

  lemma ItemGoesOn(p: WorkflowParser, j: nat, indent: nat, es: seq<Event>)
    requires j <= |p.lines| && Scan(p, j) == Some(es)
    ensures p.Continues(j, indent).Ok?
    ensures p.Continues(j, indent).value <==> es != [] && es[0].Key? && es[0].col == indent
    ensures Scan(p, p.ContentAt(j)) == Some(es)
  {
    hide Scan;
    ScanHead(p, j, es);
  }

  /** What a readable listing lays out is what the document parses to. */
  lemma LaidIsParsed(p: WorkflowParser, v: Value, es: seq<Event>)
    requires Scan(p, 0) == Some(es) && Laid(v, es)
    ensures p.Document() == Ok(v)
  {
    hide WorkflowParser.BlockAt, Scan, BlockLaid;
    ScanHead(p, 0, es);
    if c: nat :| BlockLaid(v, es, c) {
      BlockStarts(v, es, c);
      var at := p.ContentAt(0);
      assert es + [] == es;
      BlockBuilds(p, at, c, v, es, []);
      ScanHead(p, p.BlockAt(at, c).value.1, []);
    }
  }

  /**
    A document parses to a value if and only if one flat pass reads all its lines and
    the value is the tree their columns give, with no key twice in a mapping.
   */
  lemma DocumentIff(p: WorkflowParser, v: Value)
    ensures p.Document() == Ok(v) <==> exists es :: Scan(p, 0) == Some(es) && Laid(v, es)
  {
    hide *;
    if p.Document() == Ok(v) {
      var es := ParsedIsLaid(p);
    }
    if es :| Scan(p, 0) == Some(es) && Laid(v, es) {
      LaidIsParsed(p, v, es);
    }
  }
}
