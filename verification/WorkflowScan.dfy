/**
  What the loops of a successful parse do (scripts/release-audit.py): their steps, where
  block scalars end, and that no mapping repeats a key.
 */
module WorkflowScan {
  import opened Wrappers
  import opened Text
  import opened Workflow
  import opened WorkflowRoundTrip

  // The step of a successful `MapAt`: it stops, or takes one entry and goes on.
  lemma MapTakes(p: WorkflowParser, i: nat, indent: nat, acc: seq<Entry>)
    requires i <= |p.lines| && p.MapAt(i, indent, acc).Ok?
    ensures var at := p.ContentAt(i);
      if !p.StartsAt(at, indent, false) then p.MapAt(i, indent, acc) == Ok((acc, at))
      else
        && indent <= |p.lines[at]|
        && MappingOf(p.lines[at][indent..], at + 1, p.eval).Ok?
        && var (key, raw) := MappingOf(p.lines[at][indent..], at + 1, p.eval).value;
        && key !in Keys(acc) && p.ValueAt(raw, at + 1, indent).Ok?
        && var (v, j) := p.ValueAt(raw, at + 1, indent).value;
        && p.MapAt(i, indent, acc) == p.MapAt(j, indent, acc + [Entry(key, v)])
  {
    hide WorkflowParser.ValueAt, MappingOf;
    var at := p.ContentAt(i);
    if at < |p.lines| {
      LeadingBlanksBound(p.lines[at]);
    }
  }

  lemma ListTakes(p: WorkflowParser, i: nat, indent: nat, acc: seq<Value>)
    requires i <= |p.lines| && p.ListAt(i, indent, acc).Ok?
    ensures var at := p.ContentAt(i);
      if !p.StartsAt(at, indent, true) then p.ListAt(i, indent, acc) == Ok((acc, at))
      else
        && indent + 2 <= |p.lines[at]|
        && var raw := Strip(p.lines[at][indent + 2..]);
        && p.ItemAt(raw, at + 1, indent).Ok?
        && var (v, j) := p.ItemAt(raw, at + 1, indent).value;
        && p.ListAt(i, indent, acc) == p.ListAt(j, indent, acc + [v])
  {
    hide WorkflowParser.ItemAt;
  }

  predicate Swallowed(line: string, col: nat) {
    Strip(line) == "" || Deeper(line, col)
  }

  /** A block scalar swallows the longest run of lines that are blank or deeper than its key. */
  lemma {:induction false} BlockExtent(p: WorkflowParser, i: nat, col: nat, acc: seq<string>)
    requires i <= |p.lines| && p.BlockLines(i, col, acc).Ok?
    ensures var (output, j) := p.BlockLines(i, col, acc).value;
      && |output| == |acc| + j - i
      && (forall k :: 0 <= k < |acc| ==> output[k] == acc[k])
      && (forall k :: i <= k < j ==> Swallowed(p.lines[k], col))
      && (forall k :: i <= k < j ==>
            output[|acc| + k - i] == if Strip(p.lines[k]) == "" then "" else p.Dedent(p.lines[k], col))
      && (j < |p.lines| ==> !Swallowed(p.lines[j], col))
    decreases |p.lines| - i
  {
    hide Strip, Indentation, WorkflowParser.Dedent;
    if i < |p.lines| && Swallowed(p.lines[i], col) {
      var kept := if Strip(p.lines[i]) == "" then "" else p.Dedent(p.lines[i], col);
      BlockExtent(p, i + 1, col, acc + [kept]);
      var (output, j) := p.BlockLines(i, col, acc).value;
      assert output[|acc|] == (acc + [kept])[|acc|];
      forall k | 0 <= k < |acc| ensures output[k] == acc[k] {
        assert (acc + [kept])[k] == acc[k];
      }
    }
  }

  predicate Deeper(line: string, col: nat) {
    Indentation(line).Ok? && Indentation(line).value > col
  }

  function DropBlanks(s: string): string {
    LeadingBlanksBound(s);
    s[LeadingBlanks(s)..]
  }

  lemma DropBlanksOf(n: nat, rest: string)
    ensures DropBlanks(Spaces(n) + rest) == DropBlanks(rest)
  {
    hide LeadingBlanks;
    LstripSpaces(n, rest);
    LeadingBlanksBound(rest);
    LeadingBlanksBound(Spaces(n) + rest);
    assert (Spaces(n) + rest)[n + LeadingBlanks(rest)..] == rest[LeadingBlanks(rest)..];
  }

  /**
    A block scalar keeps the text of a line deeper than its key exactly when the
    line is indented two columns more; a line one column deeper loses a character.
   */
  lemma BlockKeepsText(p: WorkflowParser, line: string, col: nat)
    requires Strip(line) != "" && Deeper(line, col)
    ensures DropBlanks(p.Dedent(line, col)) == DropBlanks(line) <==> LeadingBlanks(line) >= col + 2
  {
    hide DropBlanks, LeadingBlanks, Strip;
    var n := LeadingBlanks(line);
    LeadingBlanksBound(line);
    var rest := line[n..];
    assert line == Spaces(n) + rest;
    DropBlanksOf(n, rest);
    if n >= col + 2 {
      assert p.Dedent(line, col) == Spaces(n - col - 2) + rest;
      DropBlanksOf(n - col - 2, rest);
    } else {
      StripTrims(line);
      DropBlanksShorter(line);
      DropBlanksShorter(p.Dedent(line, col));
    }
  }

  lemma DropBlanksShorter(s: string)
    ensures |DropBlanks(s)| == |s| - LeadingBlanks(s) <= |s|
  {
    hide LeadingBlanks;
    LeadingBlanksBound(s);
  }

  /** `+` chomping behaves like the default, and `-` only removes what the default ends with. */
  lemma {:induction false} Chomping(ls: seq<string>)
    ensures BlockText("|+", ls) == BlockText("|", ls) && BlockText(">+", ls) == BlockText(">", ls)
    ensures BlockText("|-", ls) == RstripNewlines(BlockText("|", ls))
    ensures BlockText(">-", ls) == RstripNewlines(BlockText(">", ls))
  {
    forall v: string ensures RstripNewlines(v + "\n") == RstripNewlines(v) {
      assert (v + "\n")[..|v|] == v;
    }
  }

  // ---------------------------------------------------------------- no key twice

  predicate Distinct(v: Value)
    decreases v
  {
    match v
    case Map(entries) => DistinctEntries(entries)
    case List(items) => forall x :: x in items ==> Distinct(x)
    case _ => true
  }

  predicate DistinctEntries(entries: seq<Entry>)
    decreases entries
  {
    && (forall i, j :: 0 <= i < j < |entries| ==> entries[i].key != entries[j].key)
    && (forall e :: e in entries ==> Distinct(e.value))
  }

  ghost predicate PlainLiterals(eval: Evaluator) {
    forall s :: eval(s).Ok? ==> Distinct(eval(s).value)
  }

  lemma {:induction false} ScalarDistinct(s: string, eval: Evaluator)
    requires PlainLiterals(eval) && ScalarOf(s, eval).Ok?
    ensures Distinct(ScalarOf(s, eval).value)
    decreases |s|, 1
  {
    var v := Strip(Uncommented(s));
    StripTrims(Uncommented(s));
    if v != "" && v[0] == '[' && v[|v| - 1] == ']' {
      StripTrims(v[1..|v| - 1]);
      var inner := Strip(v[1..|v| - 1]);
      if inner != "" {
        ScalarsDistinct(SplitCommas(inner), |inner|, eval);
      }
    }
  }

  lemma {:induction false} ScalarsDistinct(parts: seq<string>, bound: nat, eval: Evaluator)
    requires PlainLiterals(eval) && (forall s :: s in parts ==> |s| <= bound) && ScalarsOf(parts, bound, eval).Ok?
    ensures forall x :: x in ScalarsOf(parts, bound, eval).value ==> Distinct(x)
    decreases bound + 1, 0, |parts|
  {
    if parts != [] {
      assert parts[0] in parts;
      ScalarDistinct(parts[0], eval);
      ScalarsDistinct(parts[1..], bound, eval);
    }
  }

  lemma {:induction false} BlockDistinct(p: WorkflowParser, i: nat, indent: nat)
    requires PlainLiterals(p.eval) && i <= |p.lines| && p.ContentAt(i) < |p.lines| && p.BlockAt(i, indent).Ok?
    ensures Distinct(p.BlockAt(i, indent).value.0)
    decreases |p.lines| - i, 2
  {
    hide WorkflowParser.MapAt, WorkflowParser.ListAt, PlainLiterals;
    var at := p.ContentAt(i);
    if p.IsItem(p.lines[at], indent) {
      ListDistinct(p, at, indent, []);
    } else {
      MapDistinct(p, at, indent, []);
    }
  }

  lemma {:induction false} ValueDistinct(p: WorkflowParser, raw: string, i: nat, col: nat)
    requires PlainLiterals(p.eval) && i <= |p.lines| && p.ValueAt(raw, i, col).Ok?
    ensures Distinct(p.ValueAt(raw, i, col).value.0)
    decreases |p.lines| - i, 4
  {
    hide WorkflowParser.BlockAt, BlockText, WorkflowParser.BlockLines, PlainLiterals, ScalarOf;
    if raw == "" {
      var child := p.ContentAt(i);
      if child < |p.lines| && Indentation(p.lines[child]).value > col {
        BlockDistinct(p, child, Indentation(p.lines[child]).value);
      }
    } else if raw !in HEADERS {
      ScalarDistinct(raw, p.eval);
    }
  }

  lemma {:induction false} MapDistinct(p: WorkflowParser, i: nat, indent: nat, acc: seq<Entry>)
    requires PlainLiterals(p.eval) && i <= |p.lines| && p.MapAt(i, indent, acc).Ok? && DistinctEntries(acc)
    ensures DistinctEntries(p.MapAt(i, indent, acc).value.0)
    decreases |p.lines| - i, 0
  {
    hide WorkflowParser.MapAt, WorkflowParser.ValueAt, WorkflowParser.StartsAt, MappingOf, PlainLiterals, Distinct;
    MapTakes(p, i, indent, acc);
    var at := p.ContentAt(i);
    if p.StartsAt(at, indent, false) {
      var (key, raw) := MappingOf(p.lines[at][indent..], at + 1, p.eval).value;
      ValueDistinct(p, raw, at + 1, indent);
      var (v, j) := p.ValueAt(raw, at + 1, indent).value;
      assert DistinctEntries(acc + [Entry(key, v)]) by {
        forall k | 0 <= k < |acc| ensures acc[k].key != key { assert acc[k] in acc; }
      }
      MapDistinct(p, j, indent, acc + [Entry(key, v)]);
    }
  }

  lemma {:induction false} ListDistinct(p: WorkflowParser, i: nat, indent: nat, acc: seq<Value>)
    requires PlainLiterals(p.eval) && i <= |p.lines| && p.ListAt(i, indent, acc).Ok?
    requires forall x :: x in acc ==> Distinct(x)
    ensures forall x :: x in p.ListAt(i, indent, acc).value.0 ==> Distinct(x)
    decreases |p.lines| - i, 0
  {
    hide WorkflowParser.ListAt, WorkflowParser.ItemAt, WorkflowParser.StartsAt, PlainLiterals, Distinct;
    ListTakes(p, i, indent, acc);
    var at := p.ContentAt(i);
    if p.StartsAt(at, indent, true) {
      var raw := Strip(p.lines[at][indent + 2..]);
      ItemDistinct(p, raw, at + 1, indent);
      var (v, j) := p.ItemAt(raw, at + 1, indent).value;
      ListDistinct(p, j, indent, acc + [v]);
    }
  }

  lemma {:induction false} ItemDistinct(p: WorkflowParser, raw: string, i: nat, indent: nat)
    requires PlainLiterals(p.eval) && i <= |p.lines| && p.ItemAt(raw, i, indent).Ok?
    ensures Distinct(p.ItemAt(raw, i, indent).value.0)
    decreases |p.lines| - i, 5
  {
    hide WorkflowParser.ValueAt, WorkflowParser.MapAt, WorkflowParser.Continues, MappingOf, PlainLiterals, ScalarOf;
    if ':' !in raw {
      ScalarDistinct(raw, p.eval);
    } else {
      var (key, text) := MappingOf(raw, i, p.eval).value;
      ValueDistinct(p, text, i, indent + 2);
      var (v, j) := p.ValueAt(text, i, indent + 2).value;
      var e := Entry(key, v);
      if p.Continues(j, indent + 2).value {
        MapDistinct(p, p.ContentAt(j), indent + 2, []);
        var extra := p.MapAt(p.ContentAt(j), indent + 2, []).value.0;
        assert p.ItemAt(raw, i, indent).value.0 == Map([e] + extra);
        KeysAppend([], [e]);
        assert [] + [e] == [e];
        forall k | 0 <= k < |extra| ensures extra[k].key != key {
          assert extra[k] in extra && extra[k].key in Keys(extra);
        }
      }
    }
  }

  /** No mapping of a parsed document has a key twice, whatever the nesting. */
  lemma NoKeyTwice(p: WorkflowParser)
    requires PlainLiterals(p.eval) && p.Document().Ok?
    ensures Distinct(p.Document().value)
  {
    hide WorkflowParser.BlockAt, PlainLiterals;
    var at := p.ContentAt(0);
    if at < |p.lines| {
      BlockDistinct(p, at, Indentation(p.lines[at]).value);
    }
  }
}
