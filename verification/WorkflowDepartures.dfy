/**
  Where the workflow parser departs from YAML (scripts/release-audit.py): lists at the
  column of their key, and block lines one column past it.
 */
module WorkflowDepartures {
  import opened Wrappers
  import opened Text
  import opened Workflow
  import opened WorkflowBlocks
  import opened WorkflowRoundTrip
  import opened WorkflowScan

  // ---------------------------------------------------------------- lists at the column of their key

  /** A key without a value on its line: the line below it, and its column. */
  datatype BareKey = BareKey(below: nat, col: nat)

  /** The bare keys a flat pass from line `i` meets, outside block scalars. */
  function BareKeys(p: WorkflowParser, i: nat): seq<BareKey>
    requires i <= |p.lines|
    decreases |p.lines| - i, 0
  {
    if i == |p.lines| then []
    else if !p.Content(i) then BareKeys(p, i + 1)
    else
      match Indentation(p.lines[i])
      case Err(_) => []
      case Ok(col) =>
        LeadingBlanksBound(p.lines[i]);
        var text := p.lines[i][col..];
        if "- " <= text then BareItem(p, Strip(text[2..]), i + 1, col + 2) else BareEntry(p, text, i + 1, col)
  }

  function BareItem(p: WorkflowParser, raw: string, i: nat, col: nat): seq<BareKey>
    requires i <= |p.lines|
    decreases |p.lines| - i, 3
  {
    if ':' in raw then BareEntry(p, raw, i, col) else BareKeys(p, i)
  }

  function BareEntry(p: WorkflowParser, text: string, i: nat, col: nat): seq<BareKey>
    requires i <= |p.lines|
    decreases |p.lines| - i, 2
  {
    match MappingOf(text, i, p.eval) case Err(_) => [] case Ok((_, raw)) => BareValue(p, raw, i, col)
  }

  function BareValue(p: WorkflowParser, raw: string, i: nat, col: nat): seq<BareKey>
    requires i <= |p.lines|
    decreases |p.lines| - i, 1
  {
    if raw in HEADERS then
      match p.BlockLines(i, col, []) case Err(_) => [] case Ok((_, next)) => BareKeys(p, next)
    else if raw == "" then [BareKey(i, col)] + BareKeys(p, i)
    else BareKeys(p, i)
  }

  /** No list item stands at the key's column right below it. */
  predicate Unlisted(p: WorkflowParser, b: BareKey) {
    b.below <= |p.lines| ==> !p.StartsAt(p.ContentAt(b.below), b.col, true)
  }

  /** Nothing at column `limit` or left of it can read line `at` on. */
  predicate Stuck(p: WorkflowParser, at: nat, limit: nat) {
    && at < |p.lines| && p.Content(at) && Indentation(p.lines[at]).Ok?
    && var col := Indentation(p.lines[at]).value; (col > limit || (col == limit && p.IsItem(p.lines[at], col)))
  }

  /** Every key of a part that ends at line `j` has no list at its column, or nothing reads on. */
  predicate Blocked(p: WorkflowParser, keys: seq<BareKey>, j: nat, limit: nat)
    requires j <= |p.lines|
  {
    forall k :: 0 <= k < |keys| ==> Unlisted(p, keys[k]) || Stuck(p, p.ContentAt(j), limit)
  }

  lemma {:induction false} ContentIsContent(p: WorkflowParser, i: nat)
    requires i <= |p.lines|
    ensures p.ContentAt(p.ContentAt(i)) == p.ContentAt(i)
  {
  }

  lemma {:induction false} BareSkips(p: WorkflowParser, i: nat)
    requires i <= |p.lines|
    ensures BareKeys(p, i) == BareKeys(p, p.ContentAt(i))
    decreases |p.lines| - i
  {
    hide BareItem, BareEntry;
    if i < |p.lines| && !p.Content(i) {
      BareSkips(p, i + 1);
    }
  }

  lemma BlockedWeaker(p: WorkflowParser, keys: seq<BareKey>, j: nat, limit: nat, less: nat)
    requires j <= |p.lines| && Blocked(p, keys, j, limit) && less <= limit
    ensures Blocked(p, keys, j, less)
  {
    hide Unlisted, WorkflowParser.ContentAt, WorkflowParser.IsItem;
  }

  lemma BlockedJoin(p: WorkflowParser, a: seq<BareKey>, b: seq<BareKey>, j: nat, limit: nat)
    requires j <= |p.lines| && Blocked(p, a, j, limit) && Blocked(p, b, j, limit)
    ensures Blocked(p, a + b, j, limit)
  {
    hide Unlisted, Stuck;
  }

  lemma {:induction false} BlockBare(p: WorkflowParser, i: nat, indent: nat) returns (keys: seq<BareKey>)
    requires i <= |p.lines| && p.ContentAt(i) < |p.lines| && p.BlockAt(i, indent).Ok?
    ensures var j := p.BlockAt(i, indent).value.1;
      BareKeys(p, i) == keys + BareKeys(p, j) && Blocked(p, keys, j, indent)
    decreases |p.lines| - i, 2
  {
    hide WorkflowParser.MapAt, WorkflowParser.ListAt, BareKeys, Blocked;
    BareSkips(p, i);
    var at := p.ContentAt(i);
    if p.IsItem(p.lines[at], indent) {
      keys := ListBare(p, at, indent, []);
    } else {
      keys := MapBare(p, at, indent, []);
    }
  }

  lemma {:induction false} ValueBare(p: WorkflowParser, raw: string, i: nat, col: nat) returns (keys: seq<BareKey>)
    requires i <= |p.lines| && p.ValueAt(raw, i, col).Ok?
    ensures var j := p.ValueAt(raw, i, col).value.1;
      BareValue(p, raw, i, col) == keys + BareKeys(p, j) && Blocked(p, keys, j, col)
    decreases |p.lines| - i, 4
  {
    hide WorkflowParser.BlockAt, BareKeys, BlockText, WorkflowParser.BlockLines, Blocked;
    keys := [];
    NothingBlocked(p, p.ValueAt(raw, i, col).value.1, col);
    if raw == "" {
      var child := p.ContentAt(i);
      var key := BareKey(i, col);
      BareSkips(p, i);
      ContentIsContent(p, i);
      if child < |p.lines| && Indentation(p.lines[child]).value > col {
        var j := p.ValueAt(raw, i, col).value.1;
        var below := Indentation(p.lines[child]).value;
        var inner := BlockBare(p, child, below);
        BlockedWeaker(p, inner, j, below, col);
        assert Unlisted(p, key);
        OneBlocked(p, key, j, col);
        BlockedJoin(p, [key], inner, j, col);
        keys := [key] + inner;
        assert [key] + (inner + BareKeys(p, j)) == keys + BareKeys(p, j);
      } else {
        OneBlocked(p, key, i, col);
        keys := [key];
      }
    }
  }

  lemma NothingBlocked(p: WorkflowParser, j: nat, limit: nat)
    requires j <= |p.lines|
    ensures Blocked(p, [], j, limit)
  {
  }

  lemma OneBlocked(p: WorkflowParser, key: BareKey, j: nat, limit: nat)
    requires j <= |p.lines| && (Unlisted(p, key) || (key.below == j && key.col == limit))
    ensures Blocked(p, [key], j, limit)
  {
    if !Unlisted(p, key) {
      assert p.StartsAt(p.ContentAt(j), limit, true);
    }
  }

  /** What is stuck at a line stays stuck where a part ends without reading it. */
  lemma BlockedOn(p: WorkflowParser, keys: seq<BareKey>, j: nat, limit: nat, end: nat)
    requires j <= |p.lines| && end <= |p.lines| && Blocked(p, keys, j, limit)
    requires Stuck(p, p.ContentAt(j), limit) ==> end == p.ContentAt(j)
    ensures Blocked(p, keys, end, limit)
  {
    hide Unlisted, Stuck;
    ContentIsContent(p, j);
  }

  lemma StuckStops(p: WorkflowParser, at: nat, indent: nat)
    ensures Stuck(p, at, indent) ==> !p.StartsAt(at, indent, false)
    ensures Stuck(p, at, indent + 1) ==> !p.StartsAt(at, indent, true)
  {
  }

  lemma BareLine(p: WorkflowParser, i: nat, indent: nat, item: bool)
    requires p.StartsAt(i, indent, item)
    ensures !item ==> indent <= |p.lines[i]| && BareKeys(p, i) == BareEntry(p, p.lines[i][indent..], i + 1, indent)
    ensures item ==>
      && indent + 2 <= |p.lines[i]|
      && BareKeys(p, i) == BareItem(p, Strip(p.lines[i][indent + 2..]), i + 1, indent + 2)
  {
    hide BareEntry, BareItem;
    LeadingBlanksBound(p.lines[i]);
    if item {
      assert p.lines[i][indent..][2..] == p.lines[i][indent + 2..];
    }
  }

  lemma {:induction false} MapBare(p: WorkflowParser, i: nat, indent: nat, acc: seq<Entry>)
      returns (keys: seq<BareKey>)
    requires i <= |p.lines| && p.MapAt(i, indent, acc).Ok?
    ensures var j := p.MapAt(i, indent, acc).value.1;
      BareKeys(p, i) == keys + BareKeys(p, j) && Blocked(p, keys, j, indent)
    decreases |p.lines| - i, 0
  {
    hide WorkflowParser.MapAt, WorkflowParser.ValueAt, WorkflowParser.StartsAt, BareKeys, BareValue, MappingOf;
    hide Blocked, Stuck;
    BareSkips(p, i);
    MapTakes(p, i, indent, acc);
    var at := p.ContentAt(i);
    if p.StartsAt(at, indent, false) {
      BareLine(p, at, indent, false);
      var (key, raw) := MappingOf(p.lines[at][indent..], at + 1, p.eval).value;
      var first := ValueBare(p, raw, at + 1, indent);
      var (v, j) := p.ValueAt(raw, at + 1, indent).value;
      var rest := MapBare(p, j, indent, acc + [Entry(key, v)]);
      var end := p.MapAt(i, indent, acc).value.1;
      StuckStops(p, p.ContentAt(j), indent);
      MapTakes(p, j, indent, acc + [Entry(key, v)]);
      BlockedOn(p, first, j, indent, end);
      BlockedJoin(p, first, rest, end, indent);
      keys := first + rest;
      assert first + (rest + BareKeys(p, end)) == keys + BareKeys(p, end);
    } else {
      keys := [];
      NothingBlocked(p, at, indent);
    }
  }

  lemma {:induction false} ListBare(p: WorkflowParser, i: nat, indent: nat, acc: seq<Value>)
      returns (keys: seq<BareKey>)
    requires i <= |p.lines| && p.ListAt(i, indent, acc).Ok?
    ensures var j := p.ListAt(i, indent, acc).value.1;
      BareKeys(p, i) == keys + BareKeys(p, j) && Blocked(p, keys, j, indent)
    decreases |p.lines| - i, 0
  {
    hide WorkflowParser.ListAt, WorkflowParser.ItemAt, WorkflowParser.StartsAt, BareKeys, BareItem, Blocked, Stuck;
    BareSkips(p, i);
    ListTakes(p, i, indent, acc);
    var at := p.ContentAt(i);
    if p.StartsAt(at, indent, true) {
      BareLine(p, at, indent, true);
      var raw := Strip(p.lines[at][indent + 2..]);
      var first := ItemBare(p, raw, at + 1, indent);
      var (v, j) := p.ItemAt(raw, at + 1, indent).value;
      var rest := ListBare(p, j, indent, acc + [v]);
      var end := p.ListAt(i, indent, acc).value.1;
      StuckStops(p, p.ContentAt(j), indent);
      ListTakes(p, j, indent, acc + [v]);
      BlockedOn(p, first, j, indent + 1, end);
      BlockedWeaker(p, first, end, indent + 1, indent);
      BlockedJoin(p, first, rest, end, indent);
      keys := first + rest;
      assert first + (rest + BareKeys(p, end)) == keys + BareKeys(p, end);
    } else {
      keys := [];
      NothingBlocked(p, at, indent);
    }
  }

  lemma {:induction false} ItemBare(p: WorkflowParser, raw: string, i: nat, indent: nat)
      returns (keys: seq<BareKey>)
    requires i <= |p.lines| && p.ItemAt(raw, i, indent).Ok?
    ensures var j := p.ItemAt(raw, i, indent).value.1;
      BareItem(p, raw, i, indent + 2) == keys + BareKeys(p, j) && Blocked(p, keys, j, indent + 1)
    decreases |p.lines| - i, 5
  {
    hide WorkflowParser.ValueAt, WorkflowParser.MapAt, WorkflowParser.Continues, BareValue, BareKeys, MappingOf;
    hide Blocked, Stuck;
    var end := p.ItemAt(raw, i, indent).value.1;
    if ':' in raw {
      var (key, text) := MappingOf(raw, i, p.eval).value;
      var first := ValueBare(p, text, i, indent + 2);
      var j := p.ValueAt(text, i, indent + 2).value.1;
      keys := first;
      if p.Continues(j, indent + 2).value {
        var c := p.ContentAt(j);
        BareSkips(p, j);
        var rest := MapBare(p, c, indent + 2, []);
        assert end == p.MapAt(c, indent + 2, []).value.1;
        StuckContinues(p, j, indent + 2);
        BlockedOn(p, first, j, indent + 2, end);
        BlockedJoin(p, first, rest, end, indent + 2);
        keys := first + rest;
        assert first + (rest + BareKeys(p, end)) == keys + BareKeys(p, end);
      }
      BlockedWeaker(p, keys, end, indent + 2, indent + 1);
    } else {
      keys := [];
      NothingBlocked(p, end, indent + 1);
    }
  }

  lemma StuckContinues(p: WorkflowParser, j: nat, indent: nat)
    requires j <= |p.lines| && p.Continues(j, indent).Ok? && p.Continues(j, indent).value
    ensures !Stuck(p, p.ContentAt(j), indent)
  {
  }

  /**
    In a document that parses no key without a value has a list at its own column as
    the next content: YAML allows such a list, and the parser refuses it everywhere.
   */
  lemma NoListAtKeyColumn(p: WorkflowParser, k: nat)
    requires p.Document().Ok? && k < |BareKeys(p, 0)|
    ensures Unlisted(p, BareKeys(p, 0)[k])
  {
    hide WorkflowParser.BlockAt, BareKeys, Unlisted;
    BareSkips(p, 0);
    var at := p.ContentAt(0);
    BareEnd(p);
    if at < |p.lines| {
      var indent := Indentation(p.lines[at]).value;
      var keys := BlockBare(p, at, indent);
      var j := p.BlockAt(at, indent).value.1;
      BareSkips(p, j);
      assert !Stuck(p, p.ContentAt(j), indent);
      assert BareKeys(p, 0) == keys;
    }
  }

  lemma BareEnd(p: WorkflowParser)
    ensures BareKeys(p, |p.lines|) == []
  {
  }

  /** The shortest such document: a key, and a list at its column, is refused whatever follows it. */
  lemma ListAtKeyColumn(key: string, item: string, rest: seq<string>, eval: Evaluator)
    requires PrintableKey(key, eval)
    ensures WorkflowParser([key + ":", "- " + item] + rest, eval).Document() == Err(TrailingContent)
  {
    hide WorkflowParser.MapAt, WorkflowParser.BlockAt, MappingOf, PrintableKey;
    var p := WorkflowParser([key + ":", "- " + item] + rest, eval);
    var f := Field(key, Mapping([]));
    assert Spaces(0) + FieldText(f) == FieldText(f) == key + ":";
    assert Spaces(0) + "- " + item == "- " + item;
    FieldLineAt(p, 0, f, 0);
    ItemLineAt(p, 1, item, 0);
    KeyTextParses(key, "", 1, eval);
    assert key + ":" + "" == key + ":";
    StripTrims("");
    var e := Entry(KeyName(key, eval), Map([]));
    MapStep(p, 0, 0, [], e.key, "", e.value, 1);
    assert p.MapAt(1, 0, [] + [e]) == Ok(([e], 1)) by { MapEndsAtItem(p, 1, 0, [e]); assert [] + [e] == [e]; }
    MappingBlock(p, 0, 0, [e], 1);
  }

  lemma MapEndsAtItem(p: WorkflowParser, i: nat, col: nat, acc: seq<Entry>)
    requires p.StartsAt(i, col, true)
    ensures p.MapAt(i, col, acc) == Ok((acc, i))
  {
  }

  // ---------------------------------------------------------------- block lines one column past their key

  lemma OneColumn(p: WorkflowParser, l: string)
    requires |p.lines| == 2 && p.lines[1] == " " + l && l != "" && !IsSpace(l[0])
    ensures p.BlockLines(1, 0, []) == Ok(([l[1..]], 2))
  {
    RenderedLine(1, l);
    assert Spaces(1) + l == " " + l;
    assert p.Dedent(p.lines[1], 0) == l[1..];
    assert [] + [l[1..]] == [l[1..]];
  }

  /** A literal block whose line stands one column past its key parses without its first character. */
  lemma OneColumnLosesText(key: string, l: string, eval: Evaluator)
    requires PrintableKey(key, eval) && l != "" && !IsSpace(l[0]) && '\n' !in l
    ensures WorkflowParser([key + ": |", " " + l], eval).Document()
         == Ok(Map([Entry(KeyName(key, eval), Str(if |l| == 1 then "" else l[1..] + "\n"))]))
  {
    hide WorkflowParser.MapAt, WorkflowParser.BlockAt, WorkflowParser.BlockLines, MappingOf, PrintableKey, BlockText;
    hide Unlines, DropBlank, Strip, WorkflowParser.StartsAt, Indentation, KeyName, ScalarOf, WorkflowParser.NestedAt;
    var p := WorkflowParser([key + ": |", " " + l], eval);
    var f := Field(key, Block("|", []));
    assert Spaces(0) + FieldText(f) == FieldText(f) == key + ": |";
    FieldLineAt(p, 0, f, 0);
    KeyTextParses(key, " |", 1, eval);
    assert key + ":" + " |" == key + ": |";
    RawStrips("|");
    assert " " + "|" == " |";
    OneColumn(p, l);
    LiteralIs("|", [l[1..]]);
    UnlinesOne(l[1..]);
    var e := Entry(KeyName(key, eval), Str(if |l| == 1 then "" else l[1..] + "\n"));
    assert p.ValueAt("|", 1, 0) == Ok((e.value, 2));
    MapStep(p, 0, 0, [], e.key, "|", e.value, 2);
    assert [] + [e] == [e];
    MapStops(p, 2, 0, [e]);
    MappingBlock(p, 0, 0, [e], 2);
    DocumentParses(p, false, Map([e]));
  }

  lemma UnlinesOne(s: string)
    ensures Unlines(DropBlank([s])) == if s == "" then "" else s + "\n"
  {
    assert [s][1..] == [] && [s][..0] == [];
  }
}
