/**
  What the errors of the workflow parser say (scripts/release-audit.py): each names a
  fault that the lines really have, at the line it really stands on.
 */
module WorkflowErrors {
  import opened Wrappers
  import opened Text
  import opened Workflow
  import opened WorkflowRoundTrip
  import opened WorkflowScan

  // ---------------------------------------------------------------- columns

  /** The column of a line is the number of its leading blanks; a tab in its leading white space is an error. */
  lemma IndentationMeans(line: string)
    ensures match Indentation(line)
      case Ok(n) =>
        && n <= |line| && (forall k :: 0 <= k < n ==> line[k] == ' ') && (n < |line| ==> line[n] != ' ')
        && !TabIndented(line)
      case Err(e) => e == TabIndentation && TabIndented(line)
  {
    hide IsSpace;
    LstripSuffix(line);
    LeadingBlanksBound(line);
    BlanksEnd(line);
    var n := |line| - |Lstrip(line)|;
    if '\t' in line[..n] {
      var k :| 0 <= k < n && line[..n][k] == '\t';
      assert line[k] == '\t';
    }
    if k :| 0 <= k < |line| && line[k] == '\t' && forall j :: 0 <= j <= k ==> IsSpace(line[j]) {
      assert n < |line| ==> Lstrip(line)[0] == line[n];
      assert k < n;
      assert line[..n][k] == '\t';
    }
  }

  predicate TabIndented(line: string) {
    exists k :: 0 <= k < |line| && line[k] == '\t' && forall j :: 0 <= j <= k ==> IsSpace(line[j])
  }

  lemma {:induction false} BlanksEnd(line: string)
    ensures LeadingBlanks(line) <= |line|
    ensures LeadingBlanks(line) < |line| ==> line[LeadingBlanks(line)] != ' '
  {
    if line != "" && line[0] == ' ' {
      BlanksEnd(line[1..]);
    }
  }

  // ---------------------------------------------------------------- keys

  /** The key and the raw value of an entry: what stands before and behind the first colon. */
  lemma MappingMeans(before: string, behind: string, line: nat, eval: Evaluator)
    requires ':' !in before
    ensures MappingOf(before, line, eval) == Err(MissingColon(line))
    ensures MappingOf(before + ":" + behind, line, eval)
      == match ScalarOf(Strip(before), eval)
         case Err(e) => Err(e)
         case Ok(key) => if key.Str? && key.s != "" then Ok((key.s, Strip(behind))) else Err(InvalidKey(line))
  {
    hide ScalarOf, Strip, Find;
    var text := before + ":" + behind;
    assert text == before + [':'] + behind;
    FindAppend(before, ':', behind);
    assert text[..|before|] == before && text[|before| + 1..] == behind && text[|before|] == ':';
  }

  // ---------------------------------------------------------------- faults

  /** `text` is what an entry on line `k` is read from: the line past its column, or past its dash. */
  predicate EntryText(p: WorkflowParser, k: nat, text: string) {
    && k < |p.lines| && p.Content(k) && Indentation(p.lines[k]).Ok?
    && var line := p.lines[k];
    var col := Indentation(line).value;
    col <= |line| && (text == line[col..] || ("- " <= line[col..] && text == Strip(line[col + 2..])))
  }

  ghost predicate HasKey(p: WorkflowParser, n: nat, key: string) {
    1 <= n <= |p.lines| && exists text :: KeyIn(p, n, text, key)
  }

  predicate KeyIn(p: WorkflowParser, n: nat, text: string, key: string) {
    n >= 1 && EntryText(p, n - 1, text) && MappingOf(text, n, p.eval).Ok? && MappingOf(text, n, p.eval).value.0 == key
  }

  /** Two lines have the key, one of them line `n` and the other before it. */
  ghost predicate Repeats(p: WorkflowParser, n: nat, key: string) {
    HasKey(p, n, key) && exists m: nat :: m < n && HasKey(p, m, key)
  }

  predicate BadEntry(p: WorkflowParser, n: nat, text: string, e: YamlError) {
    n >= 1 && EntryText(p, n - 1, text) && MappingOf(text, n, p.eval) == Err(e)
  }

  /** The fault an error of the parser names. */
  ghost predicate Justified(p: WorkflowParser, e: YamlError) {
    || (exists s :: p.eval(s) == Err(e))
    || match e
       case TabIndentation => exists k :: 0 <= k < |p.lines| && Strip(p.lines[k]) != "" && TabIndented(p.lines[k])
       case MissingColon(n) => exists text :: BadEntry(p, n, text, e) && ':' !in text
       case InvalidKey(n) => exists text :: BadEntry(p, n, text, e) && ':' in text
       case DuplicateKey(key, n) => Repeats(p, n, key)
       case DuplicateListKeys(keys) => keys != {} && forall key :: key in keys ==> exists n: nat :: Repeats(p, n, key)
       case TrailingContent => exists j, k :: 0 <= j < k < |p.lines| && p.Content(j) && p.Content(k)
       case UnexpectedIndentation(_) => false
       case RootNotMapping => false
       case BadLiteral(_) => false
  }

  // ---------------------------------------------------------------- scalars and keys

  // The step of a scalar that has no value.
  lemma ScalarGoes(s: string, eval: Evaluator) returns (v: string, inner: string)
    requires ScalarOf(s, eval).Err?
    ensures |inner| < |s| && forall p :: p in SplitCommas(inner) ==> |p| <= |inner|
    ensures eval(v) == Err(ScalarOf(s, eval).error)
         || ScalarsOf(SplitCommas(inner), |inner|, eval) == Err(ScalarOf(s, eval).error)
  {
    hide Uncommented, Strip, Trimmed, ScalarsOf, SplitCommas;
    StripTrims(Uncommented(s));
    v := Strip(Uncommented(s));
    inner := "";
    if !((v[0] == '\'' || v[0] == '"') && v[|v| - 1] == v[0]) {
      StripTrims(v[1..|v| - 1]);
      inner := Strip(v[1..|v| - 1]);
    }
  }

  lemma {:induction false} ScalarFault(s: string, eval: Evaluator)
    requires ScalarOf(s, eval).Err?
    ensures exists t :: eval(t) == Err(ScalarOf(s, eval).error)
    decreases |s|, 1
  {
    hide ScalarOf, ScalarsOf, SplitCommas;
    var v, inner := ScalarGoes(s, eval);
    if eval(v) != Err(ScalarOf(s, eval).error) {
      ScalarsFault(SplitCommas(inner), |inner|, eval);
    }
  }

  lemma {:induction false} ScalarsFault(parts: seq<string>, bound: nat, eval: Evaluator)
    requires (forall p :: p in parts ==> |p| <= bound) && ScalarsOf(parts, bound, eval).Err?
    ensures exists t :: eval(t) == Err(ScalarsOf(parts, bound, eval).error)
    decreases bound + 1, 0, |parts|
  {
    assert parts[0] in parts;
    if ScalarOf(parts[0], eval).Err? {
      ScalarFault(parts[0], eval);
    } else {
      ScalarsFault(parts[1..], bound, eval);
    }
  }

  /** An entry without a readable key. */
  lemma KeyFault(p: WorkflowParser, n: nat, text: string)
    requires n >= 1 && EntryText(p, n - 1, text) && MappingOf(text, n, p.eval).Err?
    ensures Justified(p, MappingOf(text, n, p.eval).error)
  {
    hide ScalarOf, EntryText, Strip, Find;
    var e := MappingOf(text, n, p.eval).error;
    assert BadEntry(p, n, text, e);
    if ':' in text {
      var key := ScalarOf(Strip(text[..Find(text, ':')]), p.eval);
      if key.Err? {
        ScalarFault(Strip(text[..Find(text, ':')]), p.eval);
      }
    }
  }

  lemma HasKeyIn(p: WorkflowParser, n: nat, text: string)
    requires n >= 1 && EntryText(p, n - 1, text) && MappingOf(text, n, p.eval).Ok?
    ensures HasKey(p, n, MappingOf(text, n, p.eval).value.0)
  {
    assert KeyIn(p, n, text, MappingOf(text, n, p.eval).value.0);
  }

  lemma TabFault(p: WorkflowParser, k: nat)
    requires k < |p.lines| && Strip(p.lines[k]) != "" && Indentation(p.lines[k]).Err?
    ensures Justified(p, Indentation(p.lines[k]).error)
  {
    hide Indentation, Strip, TabIndented;
    IndentationMeans(p.lines[k]);
  }

  lemma EvalFault(p: WorkflowParser, e: YamlError)
    requires exists s :: p.eval(s) == Err(e)
    ensures Justified(p, e)
  {
  }

  lemma {:induction false} BlockLinesFault(p: WorkflowParser, i: nat, col: nat, acc: seq<string>)
    requires i <= |p.lines| && p.BlockLines(i, col, acc).Err?
    ensures Justified(p, p.BlockLines(i, col, acc).error)
    decreases |p.lines| - i
  {
    hide Justified, Strip, Indentation, WorkflowParser.Dedent;
    var line := p.lines[i];
    if Strip(line) == "" {
      BlockLinesFault(p, i + 1, col, acc + [""]);
    } else if Indentation(line).Err? {
      TabFault(p, i);
    } else {
      BlockLinesFault(p, i + 1, col, acc + [p.Dedent(line, col)]);
    }
  }

  // ---------------------------------------------------------------- the keys of a part that was read

  /** Every entry was there before or comes from a line behind `i`. */
  ghost predicate Behind(p: WorkflowParser, i: nat, acc: seq<Entry>, entries: seq<Entry>) {
    forall e :: e in entries ==> e in acc || exists m: nat :: m > i && HasKey(p, m, e.key)
  }

  lemma {:induction false} MapKeys(p: WorkflowParser, i: nat, indent: nat, acc: seq<Entry>)
    requires i <= |p.lines| && p.MapAt(i, indent, acc).Ok?
    ensures Behind(p, i, acc, p.MapAt(i, indent, acc).value.0)
    decreases |p.lines| - i
  {
    hide WorkflowParser.MapAt, WorkflowParser.ValueAt, MappingOf, HasKey, Indentation, Strip, WorkflowParser.StartsAt;
    MapTakes(p, i, indent, acc);
    var at := p.ContentAt(i);
    if p.StartsAt(at, indent, false) {
      EntryHere(p, at, indent, false);
      var text := p.lines[at][indent..];
      var (key, raw) := MappingOf(text, at + 1, p.eval).value;
      HasKeyIn(p, at + 1, text);
      var (v, j) := p.ValueAt(raw, at + 1, indent).value;
      MapKeys(p, j, indent, acc + [Entry(key, v)]);
      BehindMore(p, i, j, at + 1, acc, Entry(key, v), p.MapAt(i, indent, acc).value.0);
    }
  }

  lemma BehindMore(p: WorkflowParser, i: nat, j: nat, n: nat, acc: seq<Entry>, e: Entry, entries: seq<Entry>)
    requires i < n <= j && HasKey(p, n, e.key) && Behind(p, j, acc + [e], entries)
    ensures Behind(p, i, acc, entries)
  {
    hide HasKey;
    forall x | x in entries ensures x in acc || exists m: nat :: m > i && HasKey(p, m, x.key) {
      if x in acc + [e] {
        assert x in acc || x == e;
      } else {
        var m: nat :| m > j && HasKey(p, m, x.key);
      }
    }
  }

  /** The text of an entry whose line starts a block. */
  lemma EntryHere(p: WorkflowParser, at: nat, indent: nat, item: bool)
    requires p.StartsAt(at, indent, item)
    ensures at < |p.lines| && p.Content(at) && indent <= |p.lines[at]|
    ensures EntryText(p, at, p.lines[at][indent..])
    ensures item ==> indent + 2 <= |p.lines[at]| && EntryText(p, at, Strip(p.lines[at][indent + 2..]))
  {
    hide Strip;
    LeadingBlanksBound(p.lines[at]);
  }

  // ---------------------------------------------------------------- the parser

  lemma {:induction false} BlockFault(p: WorkflowParser, i: nat, indent: nat)
    requires i <= |p.lines| && p.ContentAt(i) < |p.lines| && Indentation(p.lines[p.ContentAt(i)]) == Ok(indent)
    requires p.BlockAt(i, indent).Err?
    ensures Justified(p, p.BlockAt(i, indent).error)
    decreases |p.lines| - i, 2
  {
    hide WorkflowParser.MapAt, WorkflowParser.ListAt, Justified, Indentation, WorkflowParser.Content;
    var at := p.ContentAt(i);
    if p.IsItem(p.lines[at], indent) {
      ListFault(p, at, indent, []);
    } else {
      MapFault(p, at, indent, [], 0);
    }
  }

  lemma {:induction false} ValueFault(p: WorkflowParser, raw: string, i: nat, col: nat)
    requires i <= |p.lines| && p.ValueAt(raw, i, col).Err?
    ensures Justified(p, p.ValueAt(raw, i, col).error)
    decreases |p.lines| - i, 4
  {
    hide WorkflowParser.BlockAt, BlockText, WorkflowParser.BlockLines, Justified, ScalarOf, Indentation, Strip;
    if raw in HEADERS {
      BlockLinesFault(p, i, col, []);
    } else if raw == "" {
      var child := p.ContentAt(i);
      if Indentation(p.lines[child]).Err? {
        TabFault(p, child);
      } else {
        ContentStands(p, i);
        BlockFault(p, child, Indentation(p.lines[child]).value);
      }
    } else {
      ScalarFault(raw, p.eval);
      EvalFault(p, p.ValueAt(raw, i, col).error);
    }
  }

  lemma {:induction false} ContentStands(p: WorkflowParser, i: nat)
    requires i <= |p.lines|
    ensures p.ContentAt(p.ContentAt(i)) == p.ContentAt(i)
  {
    hide WorkflowParser.Content;
  }

  /** The keys read so far stand on lines up to `n`. */
  ghost predicate Known(p: WorkflowParser, n: nat, acc: seq<Entry>) {
    forall e :: e in acc ==> exists m: nat :: m <= n && HasKey(p, m, e.key)
  }

  lemma KnownMore(p: WorkflowParser, n: nat, m: nat, acc: seq<Entry>, e: Entry)
    requires Known(p, n, acc) && n <= m && HasKey(p, m, e.key)
    ensures Known(p, m, acc + [e])
  {
    hide HasKey;
    forall x | x in acc + [e] ensures exists k: nat :: k <= m && HasKey(p, k, x.key) {
      if x in acc {
        var k: nat :| k <= n && HasKey(p, k, x.key);
      }
    }
  }

  lemma KnownRepeats(p: WorkflowParser, n: nat, acc: seq<Entry>, m: nat, key: string)
    requires Known(p, n, acc) && n < m && HasKey(p, m, key) && key in Keys(acc)
    ensures Justified(p, DuplicateKey(key, m))
  {
    hide HasKey;
    var e :| e in acc && e.key == key;
    assert Repeats(p, m, key);
  }

  lemma {:induction false} MapFault(p: WorkflowParser, i: nat, indent: nat, acc: seq<Entry>, n: nat)
    requires i <= |p.lines| && p.MapAt(i, indent, acc).Err? && n <= i && Known(p, n, acc)
    ensures Justified(p, p.MapAt(i, indent, acc).error)
    decreases |p.lines| - i, 0
  {
    hide Known, Justified, HasKey, WorkflowParser.MapAt, WorkflowParser.ValueAt, MappingOf, Indentation, Strip;
    hide WorkflowParser.StartsAt;
    var at := p.ContentAt(i);
    MapGoes(p, i, indent, acc);
    if Indentation(p.lines[at]).Err? {
      TabFault(p, at);
    } else {
      EntryHere(p, at, indent, false);
      var text := p.lines[at][indent..];
      if MappingOf(text, at + 1, p.eval).Err? {
        KeyFault(p, at + 1, text);
      } else {
        var (key, raw) := MappingOf(text, at + 1, p.eval).value;
        HasKeyIn(p, at + 1, text);
        if key in Keys(acc) {
          KnownRepeats(p, n, acc, at + 1, key);
        } else if p.ValueAt(raw, at + 1, indent).Err? {
          ValueFault(p, raw, at + 1, indent);
        } else {
          var (v, j) := p.ValueAt(raw, at + 1, indent).value;
          KnownMore(p, n, at + 1, acc, Entry(key, v));
          MapFault(p, j, indent, acc + [Entry(key, v)], at + 1);
        }
      }
    }
  }

  // The step of a `MapAt` that fails.
  lemma MapGoes(p: WorkflowParser, i: nat, indent: nat, acc: seq<Entry>)
    requires i <= |p.lines| && p.MapAt(i, indent, acc).Err?
    ensures var at := p.ContentAt(i);
      && at < |p.lines| && Strip(p.lines[at]) != ""
      && (Indentation(p.lines[at]).Err? ==> p.MapAt(i, indent, acc) == Err(Indentation(p.lines[at]).error))
      && (Indentation(p.lines[at]).Ok? ==>
            && p.StartsAt(at, indent, false) && indent <= |p.lines[at]|
            && var mapping := MappingOf(p.lines[at][indent..], at + 1, p.eval);
            && (mapping.Err? ==> p.MapAt(i, indent, acc) == Err(mapping.error))
            && (mapping.Ok? ==> EntryGoes(p, i, at, indent, acc, mapping.value.0, mapping.value.1)))
  {
    hide WorkflowParser.ValueAt, MappingOf, Strip;
    var at := p.ContentAt(i);
    LeadingBlanksBound(p.lines[at]);
  }

  predicate EntryGoes(p: WorkflowParser, i: nat, at: nat, indent: nat, acc: seq<Entry>, key: string, raw: string)
    requires i <= |p.lines| && at < |p.lines|
  {
    if key in Keys(acc) then p.MapAt(i, indent, acc) == Err(DuplicateKey(key, at + 1))
    else
      var value := p.ValueAt(raw, at + 1, indent);
      if value.Err? then p.MapAt(i, indent, acc) == Err(value.error)
      else p.MapAt(i, indent, acc) == p.MapAt(value.value.1, indent, acc + [Entry(key, value.value.0)])
  }

  lemma {:induction false} ListFault(p: WorkflowParser, i: nat, indent: nat, acc: seq<Value>)
    requires i <= |p.lines| && p.ListAt(i, indent, acc).Err?
    ensures Justified(p, p.ListAt(i, indent, acc).error)
    decreases |p.lines| - i, 0
  {
    hide Justified, WorkflowParser.ListAt, WorkflowParser.ItemAt, Indentation, Strip, EntryText;
    hide WorkflowParser.StartsAt;
    var at := p.ContentAt(i);
    ListGoes(p, i, indent, acc);
    if Indentation(p.lines[at]).Err? {
      TabFault(p, at);
    } else {
      EntryHere(p, at, indent, true);
      var raw := Strip(p.lines[at][indent + 2..]);
      if p.ItemAt(raw, at + 1, indent).Err? {
        ItemFault(p, raw, at + 1, indent);
      } else {
        var (v, j) := p.ItemAt(raw, at + 1, indent).value;
        ListFault(p, j, indent, acc + [v]);
      }
    }
  }

  // The step of a `ListAt` that fails.
  lemma ListGoes(p: WorkflowParser, i: nat, indent: nat, acc: seq<Value>)
    requires i <= |p.lines| && p.ListAt(i, indent, acc).Err?
    ensures var at := p.ContentAt(i);
      && at < |p.lines| && Strip(p.lines[at]) != ""
      && (Indentation(p.lines[at]).Err? ==> p.ListAt(i, indent, acc) == Err(Indentation(p.lines[at]).error))
      && (Indentation(p.lines[at]).Ok? ==>
            && p.StartsAt(at, indent, true) && indent + 2 <= |p.lines[at]|
            && var item := p.ItemAt(Strip(p.lines[at][indent + 2..]), at + 1, indent);
            p.ListAt(i, indent, acc)
            == if item.Err? then Err(item.error) else p.ListAt(item.value.1, indent, acc + [item.value.0]))
  {
    hide WorkflowParser.ItemAt, Strip;
  }

  lemma {:induction false} ItemFault(p: WorkflowParser, raw: string, i: nat, indent: nat)
    requires 1 <= i <= |p.lines| && EntryText(p, i - 1, raw) && p.ItemAt(raw, i, indent).Err?
    ensures Justified(p, p.ItemAt(raw, i, indent).error)
    decreases |p.lines| - i, 5
  {
    hide Justified, EntryText, WorkflowParser.ValueAt, WorkflowParser.MapAt, MappingOf, ScalarOf, Indentation, Strip;
    if ':' !in raw {
      ScalarFault(raw, p.eval);
      EvalFault(p, p.ItemAt(raw, i, indent).error);
    } else if MappingOf(raw, i, p.eval).Err? {
      KeyFault(p, i, raw);
    } else {
      var (key, text) := MappingOf(raw, i, p.eval).value;
      HasKeyIn(p, i, raw);
      if p.ValueAt(text, i, indent + 2).Err? {
        ValueFault(p, text, i, indent + 2);
      } else {
        var (v, j) := p.ValueAt(text, i, indent + 2).value;
        var at := p.ContentAt(j);
        if at < |p.lines| && Indentation(p.lines[at]).Err? {
          TabFault(p, at);
        } else if p.MapAt(at, indent + 2, []).Err? {
          NothingKnown(p);
          MapFault(p, at, indent + 2, [], 0);
        } else {
          MapKeys(p, at, indent + 2, []);
          OverlapFault(p, i, at, key, v, p.MapAt(at, indent + 2, []).value.0);
        }
      }
    }
  }

  lemma NothingKnown(p: WorkflowParser)
    ensures Known(p, 0, [])
  {
  }

  lemma OverlapFault(p: WorkflowParser, i: nat, at: nat, key: string, v: Value, extra: seq<Entry>)
    requires HasKey(p, i, key) && i <= at && Behind(p, at, [], extra)
    ensures Keys([Entry(key, v)]) * Keys(extra) != {} ==>
      Justified(p, DuplicateListKeys(Keys([Entry(key, v)]) * Keys(extra)))
  {
    hide HasKey;
    forall k | k in Keys([Entry(key, v)]) * Keys(extra) ensures exists n: nat :: Repeats(p, n, k) {
      var e :| e in extra && e.key == k;
      var m: nat :| m > at && HasKey(p, m, e.key);
      assert k == key && Repeats(p, m, k);
    }
  }

  /** Every error of a document names a fault it has; unexpected indentation is never found. */
  lemma ErrorsNameFaults(p: WorkflowParser)
    requires p.Document().Err?
    ensures Justified(p, p.Document().error)
  {
    hide WorkflowParser.BlockAt, Justified, Indentation, Strip;
    var at := p.ContentAt(0);
    if Indentation(p.lines[at]).Err? {
      TabFault(p, at);
    } else {
      ContentStands(p, 0);
      var indent := Indentation(p.lines[at]).value;
      if p.BlockAt(at, indent).Err? {
        BlockFault(p, at, indent);
      } else {
        TrailingFault(p, at, p.ContentAt(p.BlockAt(at, indent).value.1));
      }
    }
  }

  /** Asked for a block at another column, the parser names the line it found. */
  lemma UnexpectedColumn(p: WorkflowParser, i: nat, indent: nat)
    requires i <= |p.lines| && p.ContentAt(i) < |p.lines|
    requires Indentation(p.lines[p.ContentAt(i)]).Ok? && Indentation(p.lines[p.ContentAt(i)]).value != indent
    ensures p.BlockAt(i, indent) == Err(UnexpectedIndentation(p.ContentAt(i) + 1))
  {
    hide Indentation;
  }

  lemma TrailingFault(p: WorkflowParser, j: nat, k: nat)
    requires j < k < |p.lines| && p.Content(j) && p.Content(k)
    ensures Justified(p, TrailingContent)
  {
    hide WorkflowParser.Content;
  }
}
