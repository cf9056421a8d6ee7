/**
  Printing a document tree and parsing it again (scripts/release-audit.py).
  A `Tree` fixes how each value is written; `Meaning` is the value it stands for.
 */
module WorkflowRoundTrip {
  import opened Wrappers
  import opened Text
  import opened Workflow
  import opened WorkflowBlocks

  datatype Tree =
    | Plain(text: string)
    | Block(header: string, lines: seq<string>)
    | Mapping(fields: seq<Field>)
    | Sequence(items: seq<Tree>)
  datatype Field = Field(key: string, value: Tree)

  function Meaning(t: Tree, eval: Evaluator): Value
    decreases t
  {
    match t
    case Plain(text) => (match ScalarOf(text, eval) case Ok(v) => v case Err(_) => Null)
    case Block(header, ls) => Str(if header in HEADERS then BlockMeaning(header, ls) else "")
    case Mapping(fields) => Map(MeaningOfFields(fields, eval))
    case Sequence(items) => List(MeaningOfItems(items, eval))
  }

  function MeaningOfFields(fields: seq<Field>, eval: Evaluator): seq<Entry>
    decreases fields
  {
    if fields == [] then []
    else [Entry(KeyName(fields[0].key, eval), Meaning(fields[0].value, eval))] + MeaningOfFields(fields[1..], eval)
  }

  function MeaningOfItems(items: seq<Tree>, eval: Evaluator): seq<Value>
    decreases items
  {
    if items == [] then [] else [Meaning(items[0], eval)] + MeaningOfItems(items[1..], eval)
  }

  function KeyName(key: string, eval: Evaluator): string {
    match ScalarOf(key, eval)
    case Ok(Str(s)) => s
    case _ => ""
  }

  // ---------------------------------------------------------------- what can be printed

  predicate PrintableKey(key: string, eval: Evaluator) {
    key != "" && Trimmed(key) && ':' !in key && !("- " <= key) && KeyName(key, eval) != ""
  }

  predicate PrintableText(text: string, eval: Evaluator) {
    Trimmed(text) && ScalarOf(text, eval).Ok?
  }

  predicate PrintableBlockLine(line: string) {
    line == "" || (Strip(line) != "" && Indentation(line).Ok? && '\n' !in line)
  }

  predicate IsHeader(s: string) {
    s == "|" || s == "|-" || s == "|+" || s == ">" || s == ">-" || s == ">+"
  }

  predicate Printable(t: Tree, eval: Evaluator)
    decreases t
  {
    match t
    case Plain(text) => text != "" && !IsHeader(text) && PrintableText(text, eval)
    case Block(header, ls) => IsHeader(header) && forall l :: l in ls ==> PrintableBlockLine(l)
    case Mapping(fields) => PrintableFields(fields, eval)
    case Sequence(items) => items != [] && PrintableItems(items, eval)
  }

  predicate PrintableFields(fields: seq<Field>, eval: Evaluator)
    decreases fields
  {
    fields != [] ==>
      && PrintableKey(fields[0].key, eval)
      && Printable(fields[0].value, eval)
      && KeyName(fields[0].key, eval) !in Keys(MeaningOfFields(fields[1..], eval))
      && PrintableFields(fields[1..], eval)
  }

  predicate PrintableItems(items: seq<Tree>, eval: Evaluator)
    decreases items
  {
    items != [] ==> PrintableItem(items[0], eval) && PrintableItems(items[1..], eval)
  }

  predicate PrintableItem(t: Tree, eval: Evaluator)
    decreases t, 1
  {
    match t
    case Plain(text) => ':' !in text && PrintableText(text, eval)
    case Mapping(fields) => fields != [] && PrintableFields(fields, eval)
    case _ => false
  }

  // ---------------------------------------------------------------- the printer

  /** The raw value the parser should see on the line of a key. */
  function Raw(t: Tree): string {
    match t
    case Plain(text) => text
    case Block(header, _) => header
    case _ => ""
  }

  function FieldText(f: Field): string {
    f.key + ":" + (if Raw(f.value) == "" then "" else " " + Raw(f.value))
  }

  /** The lines below the line of a key at column `col`: children sit two columns deeper. */
  function Below(t: Tree, col: nat): seq<string>
    decreases t
  {
    match t
    case Plain(_) => []
    case Block(_, ls) => Indented(ls, col + 2)
    case Mapping(fields) => RenderFields(fields, col + 2)
    case Sequence(items) => RenderItems(items, col + 2)
  }

  function Indented(ls: seq<string>, col: nat): seq<string> {
    seq(|ls|, i requires 0 <= i < |ls| => if ls[i] == "" then "" else Spaces(col) + ls[i])
  }

  function RenderFields(fields: seq<Field>, col: nat): seq<string>
    decreases fields
  {
    if fields == [] then []
    else [Spaces(col) + FieldText(fields[0])] + Below(fields[0].value, col) + RenderFields(fields[1..], col)
  }

  function RenderItems(items: seq<Tree>, col: nat): seq<string>
    decreases items
  {
    if items == [] then [] else RenderItem(items[0], col) + RenderItems(items[1..], col)
  }

  function RenderItem(t: Tree, col: nat): seq<string>
    decreases t
  {
    if t.Mapping? && t.fields != [] then
      [Spaces(col) + "- " + FieldText(t.fields[0])] + Below(t.fields[0].value, col + 2)
      + RenderFields(t.fields[1..], col + 2)
    else [Spaces(col) + "- " + Raw(t)]
  }

  function Render(t: Tree): seq<string> {
    match t
    case Mapping(fields) => RenderFields(fields, 0)
    case Sequence(items) => RenderItems(items, 0)
    case _ => []
  }

  // ---------------------------------------------------------------- single lines

  lemma RenderedLine(n: nat, body: string)
    requires body != "" && !IsSpace(body[0])
    ensures var line := Spaces(n) + body;
      && Indentation(line) == Ok(n)
      && n <= |line| && line[n..] == body
      && Strip(line) != "" && Strip(line)[0] == body[0]
  {
    var line := Spaces(n) + body;
    LstripSpaces(n, body);
    assert Lstrip(body) == body && LeadingBlanks(body) == 0;
    assert line[..|line| - |body|] == Spaces(n);
    RstripPrefix(body);
  }

  lemma IndentedLine(n: nat, l: string)
    requires Strip(l) != "" && Indentation(l).Ok?
    ensures var line := Spaces(n) + l;
      Strip(line) == Strip(l) && Indentation(line).Ok? && Indentation(line).value >= n && line[n..] == l
  {
    var line := Spaces(n) + l;
    LstripSpaces(n, l);
    LstripSuffix(l);
    var k := |l| - |Lstrip(l)|;
    assert line[..|line| - |Lstrip(line)|] == Spaces(n) + l[..k];
  }

  lemma KeyIsNoComment(key: string, eval: Evaluator)
    requires PrintableKey(key, eval)
    ensures key[0] != '#'
  {
    assert CommentStart(key, 0, None, false) == 0 || key[0] != '#';
    assert key[..0] == "";
  }

  lemma KeyTextParses(key: string, rest: string, line: nat, eval: Evaluator)
    requires PrintableKey(key, eval)
    ensures MappingOf(key + ":" + rest, line, eval) == Ok((KeyName(key, eval), Strip(rest)))
  {
    hide ScalarOf, Find, Strip, Trimmed;
    var text := key + ":" + rest;
    assert text == key + [':'] + rest;
    FindAppend(key, ':', rest);
    assert text[..|key|] == key && text[|key| + 1..] == rest && text[|key|] == ':';
    StripTrims(key);
  }

  lemma RawTrimmed(t: Tree, eval: Evaluator)
    requires Printable(t, eval)
    ensures Trimmed(Raw(t))
  {
    hide PrintableFields, PrintableItems, ScalarOf;
  }

  lemma RawStrips(raw: string)
    requires Trimmed(raw)
    ensures Strip(if raw == "" then "" else " " + raw) == raw
  {
    StripTrims(raw);
    LstripSpaces(1, raw);
    assert Spaces(1) + raw == " " + raw;
  }

  lemma FieldTextTrimmed(f: Field)
    requires f.key != "" && Trimmed(f.key) && Trimmed(Raw(f.value))
    ensures Trimmed(FieldText(f))
  {
  }

  lemma FieldTextParses(f: Field, line: nat, eval: Evaluator)
    requires PrintableKey(f.key, eval) && Printable(f.value, eval)
    ensures MappingOf(FieldText(f), line, eval) == Ok((KeyName(f.key, eval), Raw(f.value)))
    ensures Trimmed(FieldText(f))
  {
    hide Strip, MappingOf, ScalarOf, Printable, Raw, Trimmed, KeyName;
    RawTrimmed(f.value, eval);
    FieldTextTrimmed(f);
    var rest := if Raw(f.value) == "" then "" else " " + Raw(f.value);
    KeyTextParses(f.key, rest, line, eval);
    RawStrips(Raw(f.value));
  }

  // ---------------------------------------------------------------- blocks of lines

  predicate At(p: WorkflowParser, i: nat, block: seq<string>) {
    i + |block| <= |p.lines| && p.lines[i..i + |block|] == block
  }

  /** Line `j` is the end of input or a content line left of column `limit`. */
  predicate Stops(p: WorkflowParser, j: nat, limit: nat) {
    && j <= |p.lines|
    && (j < |p.lines| ==>
          p.Content(j) && Indentation(p.lines[j]).Ok? && Indentation(p.lines[j]).value < limit)
  }

  lemma AtSplit(p: WorkflowParser, i: nat, a: seq<string>, b: seq<string>)
    requires At(p, i, a + b)
    ensures At(p, i, a) && At(p, i + |a|, b)
  {
    assert (a + b)[..|a|] == a && (a + b)[|a|..] == b;
    assert p.lines[i..i + |a|] == p.lines[i..i + |a + b|][..|a|];
    assert p.lines[i + |a|..i + |a + b|] == p.lines[i..i + |a + b|][|a|..];
  }

  lemma BlockLineStep(p: WorkflowParser, i: nat, l: string, col: nat, acc: seq<string>)
    requires i < |p.lines| && PrintableBlockLine(l)
    requires p.lines[i] == if l == "" then "" else Spaces(col + 2) + l
    ensures p.BlockLines(i, col, acc) == p.BlockLines(i + 1, col, acc + [l])
  {
    hide Strip, Indentation;
    StripTrims("");
    if l != "" {
      IndentedLine(col + 2, l);
    }
  }

  lemma BlockLinesStop(p: WorkflowParser, i: nat, col: nat, acc: seq<string>)
    requires Stops(p, i, col + 1)
    ensures p.BlockLines(i, col, acc) == Ok((acc, i))
  {
    hide Strip, Indentation;
    assert i < |p.lines| ==> p.Content(i);
  }

  lemma {:induction false} BlockLinesParse(p: WorkflowParser, i: nat, ls: seq<string>, col: nat, acc: seq<string>)
    requires forall l :: l in ls ==> PrintableBlockLine(l)
    requires At(p, i, Indented(ls, col + 2)) && Stops(p, i + |ls|, col + 1)
    ensures p.BlockLines(i, col, acc) == Ok((acc + ls, i + |ls|))
    decreases ls
  {
    hide Strip, Indentation, WorkflowParser.BlockLines, PrintableBlockLine, Stops;
    if ls == [] {
      assert acc + ls == acc;
      BlockLinesStop(p, i, col, acc);
    } else {
      var first := [if ls[0] == "" then "" else Spaces(col + 2) + ls[0]];
      assert Indented(ls, col + 2) == first + Indented(ls[1..], col + 2);
      AtSplit(p, i, first, Indented(ls[1..], col + 2));
      assert p.lines[i] == p.lines[i..i + 1][0] == first[0];
      assert ls[0] in ls;
      BlockLineStep(p, i, ls[0], col, acc);
      BlockLinesParse(p, i + 1, ls[1..], col, acc + [ls[0]]);
      assert acc + [ls[0]] + ls[1..] == acc + ls;
    }
  }

  // The line at `i` shows a field of a mapping at column `col`.
  lemma FieldLineAt(p: WorkflowParser, i: nat, f: Field, col: nat)
    requires i < |p.lines| && p.lines[i] == Spaces(col) + FieldText(f)
    requires PrintableKey(f.key, p.eval)
    ensures p.StartsAt(i, col, false) && col <= |p.lines[i]| && p.lines[i][col..] == FieldText(f)
  {
    KeyIsNoComment(f.key, p.eval);
    RenderedLine(col, FieldText(f));
    assert FieldText(f)[|f.key|] == ':';
    assert !("- " <= FieldText(f)) by {
      if |f.key| >= 2 {
        assert f.key[..2] == FieldText(f)[..2];
      }
    }
  }

  lemma ItemLineAt(p: WorkflowParser, i: nat, body: string, col: nat)
    requires i < |p.lines| && p.lines[i] == Spaces(col) + "- " + body
    ensures p.StartsAt(i, col, true) && p.lines[i][col + 2..] == body
  {
    assert p.lines[i] == Spaces(col) + ("- " + body);
    RenderedLine(col, "- " + body);
    assert p.lines[i][col + 2..] == p.lines[i][col..][2..];
  }

  // ---------------------------------------------------------------- single steps

  lemma MapStops(p: WorkflowParser, j: nat, col: nat, acc: seq<Entry>)
    requires Stops(p, j, col)
    ensures p.MapAt(j, col, acc) == Ok((acc, j))
  {
  }

  lemma ListStops(p: WorkflowParser, j: nat, col: nat, acc: seq<Value>)
    requires Stops(p, j, col)
    ensures p.ListAt(j, col, acc) == Ok((acc, j))
  {
  }

  lemma MapStep(p: WorkflowParser, i: nat, col: nat, acc: seq<Entry>, key: string, raw: string, v: Value, j: nat)
    requires p.StartsAt(i, col, false) && i < j <= |p.lines|
    requires col <= |p.lines[i]| && MappingOf(p.lines[i][col..], i + 1, p.eval) == Ok((key, raw))
    requires key !in Keys(acc) && p.ValueAt(raw, i + 1, col) == Ok((v, j))
    ensures p.MapAt(i, col, acc) == p.MapAt(j, col, acc + [Entry(key, v)])
  {
    hide WorkflowParser.ValueAt, WorkflowParser.IsItem, MappingOf, Keys, Indentation, Strip;
  }

  lemma ListStep(p: WorkflowParser, i: nat, col: nat, acc: seq<Value>, v: Value, j: nat)
    requires p.StartsAt(i, col, true) && i < j <= |p.lines|
    requires p.ItemAt(Strip(p.lines[i][col + 2..]), i + 1, col) == Ok((v, j))
    ensures p.ListAt(i, col, acc) == p.ListAt(j, col, acc + [v])
  {
    hide WorkflowParser.ItemAt;
  }

  // ---------------------------------------------------------------- the round trip

  lemma FirstLine(p: WorkflowParser, i: nat, block: seq<string>)
    requires At(p, i, block) && block != []
    ensures i < |p.lines| && p.lines[i] == block[0]
  {
    assert p.lines[i] == p.lines[i..i + |block|][0];
  }

  lemma FieldsStart(p: WorkflowParser, i: nat, fields: seq<Field>, col: nat)
    requires fields != [] && PrintableKey(fields[0].key, p.eval) && At(p, i, RenderFields(fields, col))
    ensures p.StartsAt(i, col, false) && col <= |p.lines[i]| && p.lines[i][col..] == FieldText(fields[0])
    ensures At(p, i + 1, Below(fields[0].value, col))
    ensures At(p, i + 1 + |Below(fields[0].value, col)|, RenderFields(fields[1..], col))
    ensures |RenderFields(fields, col)| == 1 + |Below(fields[0].value, col)| + |RenderFields(fields[1..], col)|
  {
    hide FieldText, PrintableKey;
    var first := [Spaces(col) + FieldText(fields[0])];
    var below, rest := Below(fields[0].value, col), RenderFields(fields[1..], col);
    AtSplit(p, i, first + below, rest);
    AtSplit(p, i, first, below);
    FirstLine(p, i, first);
    FieldLineAt(p, i, fields[0], col);
  }

  lemma ItemsStart(p: WorkflowParser, i: nat, items: seq<Tree>, col: nat)
    requires items != [] && PrintableItems(items, p.eval) && At(p, i, RenderItems(items, col))
    ensures p.StartsAt(i, col, true)
    ensures At(p, i, RenderItem(items[0], col)) && At(p, i + |RenderItem(items[0], col)|, RenderItems(items[1..], col))
    ensures |RenderItems(items, col)| == |RenderItem(items[0], col)| + |RenderItems(items[1..], col)|
  {
    var t := items[0];
    AtSplit(p, i, RenderItem(t, col), RenderItems(items[1..], col));
    FirstLine(p, i, RenderItem(t, col));
    ItemLineAt(p, i, if t.Mapping? then FieldText(t.fields[0]) else Raw(t), col);
  }

  lemma FieldsStop(p: WorkflowParser, i: nat, fields: seq<Field>, col: nat)
    requires PrintableFields(fields, p.eval) && At(p, i, RenderFields(fields, col))
    requires Stops(p, i + |RenderFields(fields, col)|, col)
    ensures Stops(p, i, col + 1)
  {
    if fields != [] {
      FieldsStart(p, i, fields, col);
    }
  }

  lemma ItemsStop(p: WorkflowParser, i: nat, items: seq<Tree>, col: nat)
    requires PrintableItems(items, p.eval) && At(p, i, RenderItems(items, col))
    requires Stops(p, i + |RenderItems(items, col)|, col)
    ensures Stops(p, i, col + 1)
  {
    if items != [] {
      ItemsStart(p, i, items, col);
    }
  }

  lemma MappingBlock(p: WorkflowParser, i: nat, col: nat, entries: seq<Entry>, j: nat)
    requires p.StartsAt(i, col, false) && p.MapAt(i, col, []) == Ok((entries, j))
    ensures p.BlockAt(i, col) == Ok((Map(entries), j))
  {
    hide WorkflowParser.MapAt;
  }

  lemma SequenceBlock(p: WorkflowParser, i: nat, col: nat, items: seq<Value>, j: nat)
    requires p.StartsAt(i, col, true) && p.ListAt(i, col, []) == Ok((items, j))
    ensures p.BlockAt(i, col) == Ok((List(items), j))
  {
    hide WorkflowParser.ListAt;
  }

  lemma NestedBlock(p: WorkflowParser, i: nat, col: nat, item: bool)
    requires p.StartsAt(i, col + 2, item)
    ensures p.ValueAt("", i, col) == p.BlockAt(i, col + 2)
  {
    hide WorkflowParser.BlockAt;
  }

  lemma LeafParses(p: WorkflowParser, i: nat, t: Tree, col: nat)
    requires Printable(t, p.eval) && (t.Plain? || t.Block? || t == Mapping([]))
    requires At(p, i, Below(t, col)) && Stops(p, i + |Below(t, col)|, col + 1)
    ensures p.ValueAt(Raw(t), i, col) == Ok((Meaning(t, p.eval), i + |Below(t, col)|))
  {
    hide WorkflowParser.BlockLines, BlockText, BlockMeaning;
    if t.Block? {
      BlockLinesParse(p, i, t.lines, col, []);
      forall k | 0 <= k < |t.lines| ensures '\n' !in t.lines[k] { assert t.lines[k] in t.lines; }
      BlockMeans(t.header, t.lines);
      assert [] + t.lines == t.lines;
    }
  }

  lemma {:induction false} ValueParses(p: WorkflowParser, i: nat, t: Tree, col: nat)
    requires Printable(t, p.eval)
    requires At(p, i, Below(t, col)) && Stops(p, i + |Below(t, col)|, col + 1)
    ensures p.ValueAt(Raw(t), i, col) == Ok((Meaning(t, p.eval), i + |Below(t, col)|))
    decreases t, 1
  {
    hide *;
    var j := i + |Below(t, col)|;
    StopsLater(p, j, col + 1, col + 2);
    NestedFacts(t, col, p.eval);
    if t.Mapping? && t.fields != [] {
      FieldsOfNonEmpty(t.fields, p.eval);
      FieldsStart(p, i, t.fields, col + 2);
      KeysAppend([], []);
      FieldsParse(p, i, t.fields, col + 2, []);
      assert [] + MeaningOfFields(t.fields, p.eval) == MeaningOfFields(t.fields, p.eval);
      NestedBlock(p, i, col, false);
      MappingBlock(p, i, col + 2, MeaningOfFields(t.fields, p.eval), j);
    } else if t.Sequence? {
      ItemsStart(p, i, t.items, col + 2);
      ItemsParse(p, i, t.items, col + 2, []);
      assert [] + MeaningOfItems(t.items, p.eval) == MeaningOfItems(t.items, p.eval);
      NestedBlock(p, i, col, true);
      SequenceBlock(p, i, col + 2, MeaningOfItems(t.items, p.eval), j);
    } else {
      LeafParses(p, i, t, col);
    }
  }

  /** What a nested mapping or sequence prints below its key, and what it means. */
  lemma NestedFacts(t: Tree, col: nat, eval: Evaluator)
    requires Printable(t, eval)
    ensures t.Mapping? ==>
      && Raw(t) == "" && Below(t, col) == RenderFields(t.fields, col + 2)
      && PrintableFields(t.fields, eval) && Meaning(t, eval) == Map(MeaningOfFields(t.fields, eval))
    ensures t.Sequence? ==>
      && Raw(t) == "" && Below(t, col) == RenderItems(t.items, col + 2)
      && t.items != [] && PrintableItems(t.items, eval) && Meaning(t, eval) == List(MeaningOfItems(t.items, eval))
  {
  }

  lemma EmptyFields(col: nat, eval: Evaluator)
    ensures RenderFields([], col) == [] && MeaningOfFields([], eval) == []
  {
  }

  lemma FieldsOfNonEmpty(fields: seq<Field>, eval: Evaluator)
    requires fields != [] && PrintableFields(fields, eval)
    ensures PrintableKey(fields[0].key, eval) && Printable(fields[0].value, eval)
    ensures PrintableFields(fields[1..], eval)
    ensures var e := Entry(KeyName(fields[0].key, eval), Meaning(fields[0].value, eval));
      && MeaningOfFields(fields, eval) == [e] + MeaningOfFields(fields[1..], eval)
      && e.key !in Keys(MeaningOfFields(fields[1..], eval))
      && Keys(MeaningOfFields(fields, eval)) == {e.key} + Keys(MeaningOfFields(fields[1..], eval))
  {
    hide PrintableKey, Printable, Meaning;
    var e := Entry(KeyName(fields[0].key, eval), Meaning(fields[0].value, eval));
    KeysAppend([e], MeaningOfFields(fields[1..], eval));
    KeysAppend([], [e]);
  }

  lemma KeysAppend(a: seq<Entry>, b: seq<Entry>)
    ensures Keys(a + b) == Keys(a) + Keys(b)
    ensures |b| == 1 ==> Keys(b) == {b[0].key}
    ensures Keys([]) == {}
  {
    forall k | k in Keys(a) + Keys(b) ensures k in Keys(a + b) {
      var e :| (e in a || e in b) && e.key == k;
      assert e in a + b;
    }
    if |b| == 1 {
      assert b[0] in b;
    }
  }

  lemma {:induction false} FieldsParse(p: WorkflowParser, i: nat, fields: seq<Field>, col: nat, acc: seq<Entry>)
    requires PrintableFields(fields, p.eval)
    requires At(p, i, RenderFields(fields, col)) && Stops(p, i + |RenderFields(fields, col)|, col)
    requires Keys(acc) !! Keys(MeaningOfFields(fields, p.eval))
    ensures p.MapAt(i, col, acc) == Ok((acc + MeaningOfFields(fields, p.eval), i + |RenderFields(fields, col)|))
    decreases fields, 0
  {
    hide *;
    if fields == [] {
      EmptyFields(col, p.eval);
      MapStops(p, i, col, acc);
      assert acc + [] == acc;
    } else {
      var f := fields[0];
      FieldsOfNonEmpty(fields, p.eval);
      FieldsStart(p, i, fields, col);
      FieldTextParses(f, i + 1, p.eval);
      var j := i + 1 + |Below(f.value, col)|;
      FieldsStop(p, j, fields[1..], col);
      ValueParses(p, i + 1, f.value, col);
      var e := Entry(KeyName(f.key, p.eval), Meaning(f.value, p.eval));
      MapStep(p, i, col, acc, e.key, Raw(f.value), e.value, j);
      KeysAppend(acc, [e]);
      FieldsParse(p, j, fields[1..], col, acc + [e]);
      assert acc + [e] + MeaningOfFields(fields[1..], p.eval) == acc + MeaningOfFields(fields, p.eval);
    }
  }

  lemma EmptyItems(col: nat, eval: Evaluator)
    ensures RenderItems([], col) == [] && MeaningOfItems([], eval) == []
  {
  }

  lemma ItemsOfNonEmpty(items: seq<Tree>, eval: Evaluator)
    requires items != [] && PrintableItems(items, eval)
    ensures PrintableItem(items[0], eval) && PrintableItems(items[1..], eval)
    ensures MeaningOfItems(items, eval) == [Meaning(items[0], eval)] + MeaningOfItems(items[1..], eval)
  {
  }

  lemma {:induction false} ItemsParse(p: WorkflowParser, i: nat, items: seq<Tree>, col: nat, acc: seq<Value>)
    requires PrintableItems(items, p.eval)
    requires At(p, i, RenderItems(items, col)) && Stops(p, i + |RenderItems(items, col)|, col)
    ensures p.ListAt(i, col, acc) == Ok((acc + MeaningOfItems(items, p.eval), i + |RenderItems(items, col)|))
    decreases items, 0
  {
    hide *;
    if items == [] {
      EmptyItems(col, p.eval);
      ListStops(p, i, col, acc);
      assert acc + [] == acc;
    } else {
      var t := items[0];
      ItemsOfNonEmpty(items, p.eval);
      ItemIsPlainOrMapping(t, p.eval);
      ItemsStart(p, i, items, col);
      var j := i + |RenderItem(t, col)|;
      ItemsStop(p, j, items[1..], col);
      if t.Plain? {
        PlainItemParses(p, i, t.text, col);
      } else {
        MappingItemParses(p, i, t, col);
      }
      ListStep(p, i, col, acc, Meaning(t, p.eval), j);
      ItemsParse(p, j, items[1..], col, acc + [Meaning(t, p.eval)]);
      assert acc + [Meaning(t, p.eval)] + MeaningOfItems(items[1..], p.eval) == acc + MeaningOfItems(items, p.eval);
    }
  }

  lemma ItemIsPlainOrMapping(t: Tree, eval: Evaluator)
    requires PrintableItem(t, eval)
    ensures t.Plain? || t.Mapping?
  {
  }

  lemma PlainItemParses(p: WorkflowParser, i: nat, text: string, col: nat)
    requires PrintableItem(Plain(text), p.eval) && At(p, i, RenderItem(Plain(text), col))
    ensures p.StartsAt(i, col, true) && col + 2 <= |p.lines[i]|
    ensures p.ItemAt(Strip(p.lines[i][col + 2..]), i + 1, col)
         == Ok((Meaning(Plain(text), p.eval), i + |RenderItem(Plain(text), col)|))
  {
    hide WorkflowParser.MapAt, WorkflowParser.ListAt, WorkflowParser.ValueAt, MappingOf;
    FirstLine(p, i, RenderItem(Plain(text), col));
    ItemLineAt(p, i, text, col);
    StripTrims(text);
  }

  lemma MappingItemStart(p: WorkflowParser, i: nat, t: Tree, col: nat)
    requires t.Mapping? && PrintableItem(t, p.eval) && At(p, i, RenderItem(t, col))
    ensures t.fields != [] && PrintableFields(t.fields, p.eval)
    ensures p.StartsAt(i, col, true) && col + 2 <= |p.lines[i]| && p.lines[i][col + 2..] == FieldText(t.fields[0])
    ensures var below, rest := Below(t.fields[0].value, col + 2), RenderFields(t.fields[1..], col + 2);
      && At(p, i + 1, below) && At(p, i + 1 + |below|, rest) && |RenderItem(t, col)| == 1 + |below| + |rest|
  {
    hide FieldText, PrintableKey, Below, RenderFields, KeyName, Meaning, Printable;
    var first := [Spaces(col) + "- " + FieldText(t.fields[0])];
    var below, rest := Below(t.fields[0].value, col + 2), RenderFields(t.fields[1..], col + 2);
    AtSplit(p, i, first + below, rest);
    AtSplit(p, i, first, below);
    FirstLine(p, i, first);
    ItemLineAt(p, i, FieldText(t.fields[0]), col);
  }

  /** The step of `ItemAt` for a mapping, from the values of its parts. */
  lemma ItemStep(p: WorkflowParser, raw: string, i: nat, col: nat, e: Entry, text: string, j: nat, more: bool,
                 extra: seq<Entry>, end: nat)
    requires i <= j <= |p.lines| && ':' in raw && MappingOf(raw, i, p.eval) == Ok((e.key, text))
    requires p.ValueAt(text, i, col + 2) == Ok((e.value, j))
    requires p.Continues(j, col + 2) == Ok(more) && e.key !in Keys(extra)
    requires if more then p.MapAt(p.ContentAt(j), col + 2, []) == Ok((extra, end)) else extra == [] && end == j
    ensures p.ItemAt(raw, i, col) == Ok((Map([e] + extra), end))
  {
    hide WorkflowParser.MapAt, WorkflowParser.ValueAt, WorkflowParser.Continues, MappingOf;
    KeysAppend([], [e]);
    assert [] + [e] == [e];
    assert [e] + [] == [e];
  }

  /** A list item that is a mapping: its first entry on the dash line, the rest below it. */
  lemma {:induction false} MappingItemParses(p: WorkflowParser, i: nat, t: Tree, col: nat)
    requires t.Mapping? && PrintableItem(t, p.eval)
    requires At(p, i, RenderItem(t, col)) && Stops(p, i + |RenderItem(t, col)|, col + 1)
    ensures p.StartsAt(i, col, true) && col + 2 <= |p.lines[i]|
    ensures p.ItemAt(Strip(p.lines[i][col + 2..]), i + 1, col)
         == Ok((Meaning(t, p.eval), i + |RenderItem(t, col)|))
    decreases t, 2
  {
    hide *;
    MappingItemStart(p, i, t, col);
    var f, rest := t.fields[0], t.fields[1..];
    FieldsOfNonEmpty(t.fields, p.eval);
    FieldTextParses(f, i + 1, p.eval);
    StripTrims(FieldText(f));
    FieldTextHasColon(f);
    var j := i + 1 + |Below(f.value, col + 2)|;
    StopsLater(p, j + |RenderFields(rest, col + 2)|, col + 1, col + 2);
    FieldsStop(p, j, rest, col + 2);
    ValueParses(p, i + 1, f.value, col + 2);
    KeysAppend([], []);
    FieldsParse(p, j, rest, col + 2, []);
    ContinuesAt(p, j, rest, col + 2);
    var e := Entry(KeyName(f.key, p.eval), Meaning(f.value, p.eval));
    var extra := MeaningOfFields(rest, p.eval);
    assert [] + extra == extra;
    ItemStep(p, FieldText(f), i + 1, col, e, Raw(f.value), j, rest != [], extra, i + |RenderItem(t, col)|);
    MeaningOfMapping(t, p.eval);
  }

  lemma StopsLater(p: WorkflowParser, j: nat, limit: nat, later: nat)
    requires Stops(p, j, limit) && limit <= later
    ensures Stops(p, j, later)
  {
  }

  lemma ContinuesAt(p: WorkflowParser, j: nat, rest: seq<Field>, col: nat)
    requires PrintableFields(rest, p.eval) && At(p, j, RenderFields(rest, col))
    requires Stops(p, j + |RenderFields(rest, col)|, col)
    ensures p.Continues(j, col) == Ok(rest != [])
    ensures rest != [] ==> p.ContentAt(j) == j
    ensures rest == [] ==> RenderFields(rest, col) == [] && MeaningOfFields(rest, p.eval) == []
  {
    if rest != [] {
      FieldsStart(p, j, rest, col);
    }
  }

  lemma MeaningOfMapping(t: Tree, eval: Evaluator)
    requires t.Mapping?
    ensures Meaning(t, eval) == Map(MeaningOfFields(t.fields, eval))
  {
  }

  lemma FieldTextHasColon(f: Field)
    ensures ':' in FieldText(f)
  {
    assert FieldText(f)[|f.key|] == ':';
  }

  lemma DocumentParses(p: WorkflowParser, item: bool, v: Value)
    requires p.StartsAt(0, 0, item) && p.BlockAt(0, 0) == Ok((v, |p.lines|))
    ensures p.Document() == Ok(v)
  {
    hide WorkflowParser.BlockAt;
  }

  lemma FieldsDocument(fields: seq<Field>, eval: Evaluator)
    requires fields != [] && PrintableFields(fields, eval)
    ensures WorkflowParser(RenderFields(fields, 0), eval).Document() == Ok(Map(MeaningOfFields(fields, eval)))
  {
    hide *;
    var p := WorkflowParser(RenderFields(fields, 0), eval);
    WholeDocument(p);
    KeysAppend([], []);
    FieldsOfNonEmpty(fields, eval);
    FieldsStart(p, 0, fields, 0);
    FieldsParse(p, 0, fields, 0, []);
    assert [] + MeaningOfFields(fields, eval) == MeaningOfFields(fields, eval);
    MappingBlock(p, 0, 0, MeaningOfFields(fields, eval), |p.lines|);
    DocumentParses(p, false, Map(MeaningOfFields(fields, eval)));
  }

  lemma ItemsDocument(items: seq<Tree>, eval: Evaluator)
    requires items != [] && PrintableItems(items, eval)
    ensures WorkflowParser(RenderItems(items, 0), eval).Document() == Ok(List(MeaningOfItems(items, eval)))
  {
    hide *;
    var p := WorkflowParser(RenderItems(items, 0), eval);
    WholeDocument(p);
    ItemsStart(p, 0, items, 0);
    ItemsParse(p, 0, items, 0, []);
    assert [] + MeaningOfItems(items, eval) == MeaningOfItems(items, eval);
    SequenceBlock(p, 0, 0, MeaningOfItems(items, eval), |p.lines|);
    DocumentParses(p, true, List(MeaningOfItems(items, eval)));
  }

  lemma WholeDocument(p: WorkflowParser)
    ensures At(p, 0, p.lines) && Stops(p, |p.lines|, 0)
  {
    assert p.lines[0..|p.lines|] == p.lines;
  }

  /** Parsing the printed lines of a document gives back exactly its meaning. */
  lemma RoundTrip(t: Tree, eval: Evaluator)
    requires (t.Mapping? || t.Sequence?) && Printable(t, eval)
    ensures WorkflowParser(Render(t), eval).Document() == Ok(Meaning(t, eval))
  {
    NestedFacts(t, 0, eval);
    if t.Mapping? && t.fields == [] {
      EmptyFields(0, eval);
    } else if t.Mapping? {
      FieldsDocument(t.fields, eval);
    } else {
      ItemsDocument(t.items, eval);
    }
  }

  // ---------------------------------------------------------------- from source text

  predicate Breakless(line: string) {
    forall c :: c in line ==> !IsLineBreak(c)
  }

  /** The characters that end a line, one by one. */
  lemma LineBreaks(c: char)
    ensures IsLineBreak(c) <==> c as int in {0x0A, 0x0B, 0x0C, 0x0D, 0x1C, 0x1D, 0x1E, 0x85, 0x2028, 0x2029}
  {
  }

  lemma {:induction false} FindBreakIs(s: string, c: char, t: string)
    requires Breakless(s) && IsLineBreak(c)
    ensures FindBreak(s + [c] + t) == |s|
  {
    if s == "" {
      assert s + [c] + t == [c] + t;
    } else {
      assert (s + [c] + t)[1..] == s[1..] + [c] + t;
      assert s[0] in s;
      FindBreakIs(s[1..], c, t);
    }
  }

  lemma {:induction false} NoBreak(s: string)
    requires Breakless(s)
    ensures FindBreak(s) == |s|
  {
    if s != "" {
      assert s[0] in s;
      NoBreak(s[1..]);
    }
  }

  /** A line ends at its first break; a carriage return takes the newline behind it along. */
  lemma SplitMeans(line: string, c: char, rest: string)
    requires Breakless(line) && IsLineBreak(c)
    ensures SplitLines("") == [] && (line != "" ==> SplitLines(line) == [line])
    ensures SplitLines(line + [c] + rest)
      == [line] + SplitLines(if c == '\r' && rest != "" && rest[0] == '\n' then rest[1..] else rest)
  {
    hide IsLineBreak, FindBreak;
    NoBreak(line);
    FindBreakIs(line, c, rest);
    var s := line + [c] + rest;
    assert s[..|line|] == line && s[|line|] == c && s[|line| + 1..] == rest;
    assert rest != "" ==> s[|line| + 1] == rest[0] && s[|line| + 2..] == rest[1..];
    assert SplitLines("") == [] by { NoBreak(""); }
  }

  lemma {:induction false} SplitUnlines(lines: seq<string>)
    requires forall l :: l in lines ==> Breakless(l)
    ensures SplitLines(Unlines(lines)) == lines
  {
    if lines != [] {
      var s := Unlines(lines);
      assert lines[0] in lines;
      FindBreakIs(lines[0], '\n', Unlines(lines[1..]));
      assert s == lines[0] + ['\n'] + Unlines(lines[1..]);
      assert s[..|lines[0]|] == lines[0] && s[|lines[0]| + 1..] == Unlines(lines[1..]);
      SplitUnlines(lines[1..]);
    }
  }

  /** The same for the text of a workflow file; a document that is a list is refused. */
  lemma SourceRoundTrip(t: Tree, eval: Evaluator)
    requires (t.Mapping? || t.Sequence?) && Printable(t, eval)
    requires forall l :: l in Render(t) ==> Breakless(l)
    ensures WorkflowOf(Unlines(Render(t)), eval)
         == if t.Mapping? then Ok(Meaning(t, eval)) else Err(RootNotMapping)
  {
    SplitUnlines(Render(t));
    RoundTrip(t, eval);
  }
}
