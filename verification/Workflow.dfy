/**
  The indentation-driven parser that audits the release workflow
  (scripts/release-audit.py): its value of every block, as functions over the
  lines, and the loops that compute it, proved against those functions.
 */
module Workflow {
  import opened Wrappers
  import opened Text

  datatype YamlError =
    | TabIndentation
    | UnexpectedIndentation(line: nat)
    | MissingColon(line: nat)
    | InvalidKey(line: nat)
    | DuplicateKey(key: string, line: nat)
    | DuplicateListKeys(keys: set<string>)
    | TrailingContent
    | RootNotMapping
    | BadLiteral(text: string)

  /** Parsed documents.  A mapping keeps its entries in insertion order, as a dict does. */
  datatype Value =
    | Null
    | Bool(b: bool)
    | Str(s: string)
    | List(items: seq<Value>)
    | Map(entries: seq<Entry>)
  datatype Entry = Entry(key: string, value: Value)

  type Parsed<+T> = Result<T, YamlError>

  /** The evaluator of quoted scalars, `ast.literal_eval`. */
  type Evaluator = string -> Parsed<Value>

  function Keys(entries: seq<Entry>): set<string> {
    set e | e in entries :: e.key
  }

  // ---------------------------------------------------------------- lines and scalars

  predicate IsLineBreak(c: char) {
    var n := c as int;
    10 <= n <= 13 || 28 <= n <= 30 || n == 0x85 || n == 0x2028 || n == 0x2029
  }

  function FindBreak(s: string): (i: nat)
    ensures i <= |s|
    ensures i < |s| ==> IsLineBreak(s[i])
  {
    if s == "" || IsLineBreak(s[0]) then 0 else 1 + FindBreak(s[1..])
  }

  /** `str.splitlines` */
  function SplitLines(s: string): seq<string>
    decreases |s|
  {
    var i := FindBreak(s);
    if s == "" then []
    else if i == |s| then [s]
    else if s[i] == '\r' && i + 1 < |s| && s[i + 1] == '\n' then [s[..i]] + SplitLines(s[i + 2..])
    else [s[..i]] + SplitLines(s[i + 1..])
  }

  function Indentation(line: string): Parsed<nat> {
    LstripSuffix(line);
    if '\t' in line[..|line| - |Lstrip(line)|] then Err(TabIndentation) else Ok(LeadingBlanks(line))
  }

  /** Where the comment of `value` starts, scanning from `index` with the given quote state. */
  function CommentStart(value: string, index: nat, quote: Option<char>, escaped: bool): (r: nat)
    requires index <= |value|
    ensures index <= r <= |value|
    decreases |value| - index
  {
    if index == |value| then index
    else
      var c := value[index];
      if escaped then CommentStart(value, index + 1, quote, false)
      else if quote == Some('"') && c == '\\' then CommentStart(value, index + 1, quote, true)
      else if c == '\'' || c == '"' then
        var next := if quote == None then Some(c) else if quote == Some(c) then None else quote;
        CommentStart(value, index + 1, next, false)
      else if c == '#' && quote == None && (index == 0 || IsSpace(value[index - 1])) then index
      else CommentStart(value, index + 1, quote, false)
  }

  /** The quote that is open after a text, and whether its last character escapes the next. */
  function QuoteState(text: string): (Option<char>, bool) {
    if text == "" then (None, false)
    else
      var (quote, escaped) := QuoteState(text[..|text| - 1]);
      var c := text[|text| - 1];
      if escaped then (quote, false)
      else if quote == Some('"') && c == '\\' then (quote, true)
      else if (c == '\'' || c == '"') && quote == None then (Some(c), false)
      else if quote == Some(c) then (None, false)
      else (quote, false)
  }

  /** `#` starts a comment at `i`: outside quotes, at the start or after white space. */
  predicate Comments(value: string, i: nat)
    requires i < |value|
  {
    value[i] == '#' && QuoteState(value[..i]) == (None, false) && (i == 0 || IsSpace(value[i - 1]))
  }

  /** The scan stops at the first `#` that starts a comment. */
  lemma {:induction false} CommentIsFirst(value: string, index: nat, quote: Option<char>, escaped: bool)
    requires index <= |value| && QuoteState(value[..index]) == (quote, escaped)
    requires quote == None || quote == Some('"') || quote == Some('\'')
    requires escaped ==> quote == Some('"')
    ensures var i := CommentStart(value, index, quote, escaped);
      && (i < |value| ==> Comments(value, i))
      && forall k :: index <= k < i ==> !Comments(value, k)
    decreases |value| - index
  {
    if index < |value| {
      assert value[..index + 1][..index] == value[..index];
      var c := value[index];
      var (next, nextEscaped) := QuoteState(value[..index + 1]);
      if !Comments(value, index) {
        CommentIsFirst(value, index + 1, next, nextEscaped);
      }
    }
  }

  /** `strip_comment` keeps what precedes the first comment, without trailing white space. */
  lemma UncommentedMeans(value: string, i: nat)
    requires i <= |value| && (i < |value| ==> Comments(value, i)) && forall k :: 0 <= k < i ==> !Comments(value, k)
    ensures Uncommented(value) == Rstrip(value[..i])
  {
    hide CommentStart, Comments;
    assert value[..0] == "";
    CommentIsFirst(value, 0, None, false);
  }

  function Uncommented(value: string): (r: string)
    ensures |r| <= |value|
  {
    var text := value[..CommentStart(value, 0, None, false)];
    RstripPrefix(text);
    Rstrip(text)
  }

  method StripComment(value: string) returns (r: string)
    ensures r == Uncommented(value)
  {
    var quote: Option<char> := None;
    var escaped := false;
    for index := 0 to |value|
      invariant CommentStart(value, 0, None, false) == CommentStart(value, index, quote, escaped)
    {
      var c := value[index];
      if escaped {
        escaped := false;
        continue;
      }
      if quote == Some('"') && c == '\\' {
        escaped := true;
        continue;
      }
      if c == '\'' || c == '"' {
        if quote == None {
          quote := Some(c);
        } else if quote == Some(c) {
          quote := None;
        }
        continue;
      }
      if c == '#' && quote == None && (index == 0 || IsSpace(value[index - 1])) {
        return Rstrip(value[..index]);
      }
    }
    assert value[..|value|] == value;
    return Rstrip(value);
  }

  /** `s.split(",")` */
  function SplitCommas(s: string): (parts: seq<string>)
    ensures forall p :: p in parts ==> |p| <= |s|
    decreases |s|
  {
    var i := Find(s, ',');
    if i == |s| then [s] else [s[..i]] + SplitCommas(s[i + 1..])
  }

  function ScalarOf(value: string, eval: Evaluator): Parsed<Value>
    decreases |value|, 1
  {
    StripTrims(Uncommented(value));
    var v := Strip(Uncommented(value));
    if v == "" then Ok(Null)
    else if (v[0] == '\'' || v[0] == '"') && v[|v| - 1] == v[0] then eval(v)
    else if v[0] == '[' && v[|v| - 1] == ']' then
      StripTrims(v[1..|v| - 1]);
      var inner := Strip(v[1..|v| - 1]);
      if inner == "" then Ok(List([]))
      else
        var items :- ScalarsOf(SplitCommas(inner), |inner|, eval);
        Ok(List(items))
    else if v == "true" then Ok(Bool(true))
    else if v == "false" then Ok(Bool(false))
    else if v == "null" then Ok(Null)
    else Ok(Str(v))
  }

  function ScalarsOf(parts: seq<string>, bound: nat, eval: Evaluator): Parsed<seq<Value>>
    requires forall p :: p in parts ==> |p| <= bound
    decreases bound + 1, 0, |parts|
  {
    if parts == [] then Ok([])
    else
      assert parts[0] in parts;
      var head :- ScalarOf(parts[0], eval);
      var tail :- ScalarsOf(parts[1..], bound, eval);
      Ok([head] + tail)
  }

  /** The key and the raw value of a `key: value` text. */
  function MappingOf(text: string, line: nat, eval: Evaluator): Parsed<(string, string)> {
    if ':' !in text then Err(MissingColon(line))
    else
      var i := Find(text, ':');
      var key :- ScalarOf(Strip(text[..i]), eval);
      if key.Str? && key.s != "" then Ok((key.s, Strip(text[i + 1..]))) else Err(InvalidKey(line))
  }

  // ---------------------------------------------------------------- block scalars

  const HEADERS: set<string> := {"|", "|-", "|+", ">", ">-", ">+"}

  /** `re.sub(r"(?<=\S)\n(?=\S)", " ", s)` */
  function Fold(s: string): (r: string)
    ensures |r| == |s|
  {
    seq(|s|, i requires 0 <= i < |s| =>
      if s[i] == '\n' && 0 < i < |s| - 1 && !IsSpace(s[i - 1]) && !IsSpace(s[i + 1]) then ' ' else s[i])
  }

  function BlockText(header: string, output: seq<string>): string
    requires header in HEADERS
  {
    var joined := Join(output);
    var value := if header[0] == '>' then Fold(joined) else joined;
    if header[1..] == "-" then RstripNewlines(value)
    else if value != "" && value[|value| - 1] != '\n' then value + "\n"
    else value
  }

  // ---------------------------------------------------------------- the grammar

  datatype WorkflowParser = WorkflowParser(lines: seq<string>, eval: Evaluator) {

    predicate Content(index: nat)
      requires index < |lines|
    {
      var s := Strip(lines[index]);
      s != "" && s[0] != '#'
    }

    function ContentAt(index: nat): (r: nat)
      requires index <= |lines|
      ensures index <= r <= |lines|
      ensures r < |lines| ==> Content(r)
      decreases |lines| - index
    {
      if index == |lines| || Content(index) then index else ContentAt(index + 1)
    }

    predicate IsItem(line: string, indent: nat) {
      indent <= |line| && "- " <= line[indent..]
    }

    /** Line `index` is the first line of a list (`item`) or of a mapping at column `indent`. */
    predicate StartsAt(index: nat, indent: nat, item: bool) {
      && index < |lines| && Content(index)
      && Indentation(lines[index]) == Ok(indent)
      && IsItem(lines[index], indent) == item
    }

    function BlockAt(index: nat, indent: nat): (r: Parsed<(Value, nat)>)
      requires index <= |lines| && ContentAt(index) < |lines|
      ensures r.Ok? ==> ContentAt(index) < r.value.1 <= |lines|
      decreases |lines| - index, 2
    {
      var at := ContentAt(index);
      var current :- Indentation(lines[at]);
      if current != indent then Err(UnexpectedIndentation(at + 1))
      else if IsItem(lines[at], indent) then
        var items :- ListAt(at, indent, []);
        Ok((List(items.0), items.1))
      else
        var entries :- MapAt(at, indent, []);
        Ok((Map(entries.0), entries.1))
    }

    function NestedAt(index: nat, indent: nat): (r: Parsed<(Value, nat)>)
      requires index <= |lines|
      ensures r.Ok? ==> index <= r.value.1 <= |lines|
      decreases |lines| - index, 3
    {
      var child := ContentAt(index);
      if child == |lines| then Ok((Map([]), index))
      else
        var current :- Indentation(lines[child]);
        if current <= indent then Ok((Map([]), index)) else BlockAt(child, current)
    }

    function BlockLines(index: nat, indent: nat, output: seq<string>): (r: Parsed<(seq<string>, nat)>)
      requires index <= |lines|
      ensures r.Ok? ==> index <= r.value.1 <= |lines|
      decreases |lines| - index
    {
      if index == |lines| then Ok((output, index))
      else
        var line := lines[index];
        if Strip(line) == "" then BlockLines(index + 1, indent, output + [""])
        else
          var current :- Indentation(line);
          if current <= indent then Ok((output, index))
          else BlockLines(index + 1, indent, output + [Dedent(line, indent)])
    }

    /** The text a block scalar keeps of a line: everything past column `indent + 2`. */
    function Dedent(line: string, indent: nat): string {
      line[if |line| < indent + 2 then |line| else indent + 2..]
    }

    function ValueAt(raw: string, index: nat, indent: nat): (r: Parsed<(Value, nat)>)
      requires index <= |lines|
      ensures r.Ok? ==> index <= r.value.1 <= |lines|
      decreases |lines| - index, 4
    {
      if raw in HEADERS then
        var block :- BlockLines(index, indent, []);
        Ok((Str(BlockText(raw, block.0)), block.1))
      else if raw == "" then NestedAt(index, indent)
      else
        var scalar :- ScalarOf(raw, eval);
        Ok((scalar, index))
    }

    function MapAt(index: nat, indent: nat, result: seq<Entry>): (r: Parsed<(seq<Entry>, nat)>)
      requires index <= |lines|
      ensures r.Ok? ==> index <= r.value.1 <= |lines|
      ensures r.Ok? && StartsAt(index, indent, false) ==> index < r.value.1
      decreases |lines| - index, 0
    {
      var at := ContentAt(index);
      if at == |lines| then Ok((result, at))
      else
        var current :- Indentation(lines[at]);
        if current != indent || IsItem(lines[at], indent) then Ok((result, at))
        else
          LeadingBlanksBound(lines[at]);
          var mapping :- MappingOf(lines[at][indent..], at + 1, eval);
          if mapping.0 in Keys(result) then Err(DuplicateKey(mapping.0, at + 1))
          else
            var value :- ValueAt(mapping.1, at + 1, indent);
            MapAt(value.1, indent, result + [Entry(mapping.0, value.0)])
    }

    function ListAt(index: nat, indent: nat, result: seq<Value>): (r: Parsed<(seq<Value>, nat)>)
      requires index <= |lines|
      ensures r.Ok? ==> index <= r.value.1 <= |lines|
      ensures r.Ok? && StartsAt(index, indent, true) ==> index < r.value.1
      decreases |lines| - index, 0
    {
      var at := ContentAt(index);
      if at == |lines| then Ok((result, at))
      else
        var current :- Indentation(lines[at]);
        if current != indent || !IsItem(lines[at], indent) then Ok((result, at))
        else
          var item :- ItemAt(Strip(lines[at][indent + 2..]), at + 1, indent);
          ListAt(item.1, indent, result + [item.0])
    }

    /** One list item: a scalar, or a mapping whose first entry sits on the dash line. */
    function ItemAt(raw: string, index: nat, indent: nat): (r: Parsed<(Value, nat)>)
      requires index <= |lines|
      ensures r.Ok? ==> index <= r.value.1 <= |lines|
      decreases |lines| - index, 5
    {
      if ':' !in raw then
        var scalar :- ScalarOf(raw, eval);
        Ok((scalar, index))
      else
        var mapping :- MappingOf(raw, index, eval);
        var value :- ValueAt(mapping.1, index, indent + 2);
        var item := [Entry(mapping.0, value.0)];
        var more :- Continues(value.1, indent + 2);
        if !more then Ok((Map(item), value.1))
        else
          var extra :- MapAt(ContentAt(value.1), indent + 2, []);
          var overlap := Keys(item) * Keys(extra.0);
          if overlap != {} then Err(DuplicateListKeys(overlap))
          else Ok((Map(item + extra.0), extra.1))
    }

    /** Whether the next content line continues a list item's mapping at column `indent`. */
    function Continues(index: nat, indent: nat): Parsed<bool>
      requires index <= |lines|
    {
      var at := ContentAt(index);
      if at == |lines| then Ok(false)
      else
        var current :- Indentation(lines[at]);
        Ok(current == indent && !IsItem(lines[at], indent))
    }

    function Document(): Parsed<Value> {
      var at := ContentAt(0);
      if at == |lines| then Ok(Map([]))
      else
        var indent :- Indentation(lines[at]);
        var block :- BlockAt(at, indent);
        if ContentAt(block.1) != |lines| then Err(TrailingContent) else Ok(block.0)
    }

    // -------------------------------------------------------------- the parser's methods

    method NextContent(start: nat) returns (index: nat)
      requires start <= |lines|
      ensures index == ContentAt(start)
    {
      index := start;
      while index < |lines|
        invariant start <= index <= |lines|
        invariant ContentAt(start) == ContentAt(index)
      {
        var stripped := Strip(lines[index]);
        if stripped != "" && stripped[0] != '#' {
          return;
        }
        index := index + 1;
      }
    }

    method Parse() returns (r: Parsed<Value>)
      ensures r == Document()
    {
      var index := NextContent(0);
      if index == |lines| {
        return Ok(Map([]));
      }
      var indent :- Indentation(lines[index]);
      var block :- ParseBlock(index, indent);
      var rest := NextContent(block.1);
      if rest != |lines| {
        return Err(TrailingContent);
      }
      return Ok(block.0);
    }

    method ParseBlock(start: nat, indent: nat) returns (r: Parsed<(Value, nat)>)
      requires start <= |lines| && ContentAt(start) < |lines|
      ensures r == BlockAt(start, indent)
      decreases |lines| - start, 2
    {
      var index := NextContent(start);
      var line := lines[index];
      var current :- Indentation(line);
      if current != indent {
        return Err(UnexpectedIndentation(index + 1));
      }
      if IsItem(line, indent) {
        var items :- ParseList(index, indent);
        return Ok((List(items.0), items.1));
      }
      var entries :- ParseMap(index, indent);
      return Ok((Map(entries.0), entries.1));
    }

    method NestedValue(index: nat, indent: nat) returns (r: Parsed<(Value, nat)>)
      requires index <= |lines|
      ensures r == NestedAt(index, indent)
      decreases |lines| - index, 3
    {
      var child := NextContent(index);
      if child >= |lines| {
        return Ok((Map([]), index));
      }
      var current :- Indentation(lines[child]);
      if current <= indent {
        return Ok((Map([]), index));
      }
      r := ParseBlock(child, current);
    }

    method BlockScalar(start: nat, indent: nat, header: string) returns (r: Parsed<(Value, nat)>)
      requires start <= |lines| && header in HEADERS
      ensures r == ValueAt(header, start, indent)
    {
      var output: seq<string> := [];
      var index := start;
      while index < |lines|
        invariant start <= index <= |lines|
        invariant BlockLines(start, indent, []) == BlockLines(index, indent, output)
      {
        var line := lines[index];
        if Strip(line) != "" {
          var current :- Indentation(line);
          if current <= indent {
            break;
          }
        }
        output := output + [if Strip(line) != "" then Dedent(line, indent) else ""];
        index := index + 1;
      }
      return Ok((Str(BlockText(header, output)), index));
    }

    method MappingValue(raw: string, index: nat, indent: nat) returns (r: Parsed<(Value, nat)>)
      requires index <= |lines|
      ensures r == ValueAt(raw, index, indent)
      decreases |lines| - index, 4
    {
      if raw in HEADERS {
        r := BlockScalar(index, indent, raw);
      } else if raw == "" {
        r := NestedValue(index, indent);
      } else {
        var scalar :- ScalarOf(raw, eval);
        r := Ok((scalar, index));
      }
    }

    method ParseMap(start: nat, indent: nat) returns (r: Parsed<(seq<Entry>, nat)>)
      requires start <= |lines|
      ensures r == MapAt(start, indent, [])
      decreases |lines| - start, 0
    {
      hide MappingOf, WorkflowParser.ValueAt;
      var result: seq<Entry> := [];
      var index := start;
      while true
        invariant start <= index <= |lines|
        invariant MapAt(start, indent, []) == MapAt(index, indent, result)
        decreases |lines| - index
      {
        index := NextContent(index);
        if index >= |lines| {
          break;
        }
        var line := lines[index];
        var current :- Indentation(line);
        if current < indent {
          break;
        }
        if current != indent || IsItem(line, indent) {
          break;
        }
        LeadingBlanksBound(line);
        var mapping :- MappingOf(line[indent..], index + 1, eval);
        var (key, raw) := mapping;
        if key in Keys(result) {
          return Err(DuplicateKey(key, index + 1));
        }
        var value :- MappingValue(raw, index + 1, indent);
        result := result + [Entry(key, value.0)];
        index := value.1;
      }
      return Ok((result, index));
    }

    method ParseItem(rawItem: string, start: nat, indent: nat) returns (r: Parsed<(Value, nat)>)
      requires start <= |lines|
      ensures r == ItemAt(rawItem, start, indent)
      decreases |lines| - start, 5
    {
      if ':' !in rawItem {
        var scalar :- ScalarOf(rawItem, eval);
        return Ok((scalar, start));
      }
      var mapping :- MappingOf(rawItem, start, eval);
      var (key, raw) := mapping;
      var value :- MappingValue(raw, start, indent + 2);
      var index := value.1;
      var item := [Entry(key, value.0)];
      var continuation := NextContent(index);
      if continuation < |lines| {
        var column :- Indentation(lines[continuation]);
        if column == indent + 2 && !IsItem(lines[continuation], indent + 2) {
          var extra :- ParseMap(continuation, indent + 2);
          var overlap := Keys(item) * Keys(extra.0);
          if overlap != {} {
            return Err(DuplicateListKeys(overlap));
          }
          item := item + extra.0;
          index := extra.1;
        }
      }
      return Ok((Map(item), index));
    }

    method ParseList(start: nat, indent: nat) returns (r: Parsed<(seq<Value>, nat)>)
      requires start <= |lines|
      ensures r == ListAt(start, indent, [])
      decreases |lines| - start, 0
    {
      hide WorkflowParser.ItemAt, Indentation, Strip;
      var result: seq<Value> := [];
      var index := start;
      while true
        invariant start <= index <= |lines|
        invariant ListAt(start, indent, []) == ListAt(index, indent, result)
        decreases |lines| - index
      {
        index := NextContent(index);
        if index >= |lines| {
          break;
        }
        var line := lines[index];
        var current :- Indentation(line);
        if current != indent || !IsItem(line, indent) {
          break;
        }
        var rawItem := Strip(line[indent + 2..]);
        index := index + 1;
        var item :- ParseItem(rawItem, index, indent);
        result := result + [item.0];
        index := item.1;
      }
      return Ok((result, index));
    }
  }

  lemma {:induction false} LeadingBlanksBound(s: string)
    ensures LeadingBlanks(s) <= |s|
    ensures forall i :: 0 <= i < LeadingBlanks(s) ==> s[i] == ' '
  {
    if s != "" && s[0] == ' ' {
      LeadingBlanksBound(s[1..]);
    }
  }

  function WorkflowOf(source: string, eval: Evaluator): Parsed<Value> {
    var document :- WorkflowParser(SplitLines(source), eval).Document();
    if document.Map? then Ok(document) else Err(RootNotMapping)
  }

  method ParseWorkflow(source: string, eval: Evaluator) returns (r: Parsed<Value>)
    ensures r == WorkflowOf(source, eval)
  {
    var document :- WorkflowParser(SplitLines(source), eval).Parse();
    if !document.Map? {
      return Err(RootNotMapping);
    }
    return Ok(document);
  }
}
