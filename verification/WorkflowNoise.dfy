/**
  Blank lines and comments in a workflow (scripts/release-audit.py): outside block
  scalars they make no difference to what a document parses to.
 */
module WorkflowNoise {
  import opened Wrappers
  import opened Text
  import opened Workflow
  import opened WorkflowRoundTrip
  import opened WorkflowLayout

  // ---------------------------------------------------------------- the flat pass, line by line

  /** What the flat pass reads from one line: its events and where it goes on, behind a block scalar or not. */
  datatype Reading = Bad | BadBlock | Read(events: seq<Event>, next: nat, block: bool)

  function ReadEntry(p: WorkflowParser, text: string, i: nat, col: nat): (r: Reading)
    requires i <= |p.lines|
    ensures r.Read? ==> i <= r.next <= |p.lines| && (!r.block ==> r.next == i)
  {
    match MappingOf(text, i, p.eval)
    case Err(_) => Bad
    case Ok((key, raw)) =>
      if raw in HEADERS then
        match p.BlockLines(i, col, [])
        case Err(_) => BadBlock
        case Ok((output, next)) => Read([Key(key, col), Leaf(Str(BlockText(raw, output)))], next, true)
      else if raw == "" then Read([Key(key, col)], i, false)
      else
        match ScalarOf(raw, p.eval)
        case Err(_) => Bad
        case Ok(v) => Read([Key(key, col), Leaf(v)], i, false)
  }

  function ReadItem(p: WorkflowParser, raw: string, i: nat, col: nat): (r: Reading)
    requires i <= |p.lines|
    ensures r.Read? ==> i <= r.next <= |p.lines| && (!r.block ==> r.next == i)
  {
    if ':' in raw then ReadEntry(p, raw, i, col)
    else
      match ScalarOf(raw, p.eval)
      case Err(_) => Bad
      case Ok(v) => Read([Leaf(v)], i, false)
  }

  function ReadLine(p: WorkflowParser, i: nat): (r: Reading)
    requires i < |p.lines|
    ensures r.Read? ==> i < r.next <= |p.lines| && (!r.block ==> r.next == i + 1)
  {
    match Indentation(p.lines[i])
    case Err(_) => Bad
    case Ok(col) =>
      LeadingBlanksBound(p.lines[i]);
      var text := p.lines[i][col..];
      if "- " <= text then
        match ReadItem(p, Strip(text[2..]), i + 1, col + 2)
        case Read(events, next, block) => Read([Item(col)] + events, next, block)
        case bad => bad
      else ReadEntry(p, text, i + 1, col)
  }

  /** The rest of the pass, given what was read. */
  function ThenScan(p: WorkflowParser, r: Reading): Option<seq<Event>>
    requires r.Read? ==> r.next <= |p.lines|
  {
    if r.Read? then Then(r.events, Scan(p, r.next)) else None
  }

  lemma EntryReads(p: WorkflowParser, text: string, i: nat, col: nat)
    requires i <= |p.lines|
    ensures ScanEntry(p, text, i, col) == ThenScan(p, ReadEntry(p, text, i, col))
  {
    hide MappingOf, ScalarOf, Scan, BlockText, WorkflowParser.BlockLines;
    if MappingOf(text, i, p.eval).Ok? {
      var (key, raw) := MappingOf(text, i, p.eval).value;
      EntryScans(p, text, i, col);
      if raw in HEADERS && p.BlockLines(i, col, []).Ok? {
        var (output, next) := p.BlockLines(i, col, []).value;
        var leaf := Leaf(Str(BlockText(raw, output)));
        ThenJoins([Key(key, col)], [leaf], Scan(p, next));
        assert [Key(key, col)] + [leaf] == [Key(key, col), leaf];
      } else if raw !in HEADERS && raw != "" && ScalarOf(raw, p.eval).Ok? {
        var leaf := Leaf(ScalarOf(raw, p.eval).value);
        ThenJoins([Key(key, col)], [leaf], Scan(p, i));
        assert [Key(key, col)] + [leaf] == [Key(key, col), leaf];
      }
    }
  }

  lemma ItemReads(p: WorkflowParser, raw: string, i: nat, col: nat)
    requires i <= |p.lines|
    ensures ScanItem(p, raw, i, col) == ThenScan(p, ReadItem(p, raw, i, col))
  {
    hide ScanEntry, ReadEntry, ScalarOf, Scan;
    EntryReads(p, raw, i, col);
  }

  lemma LineReads(p: WorkflowParser, i: nat)
    requires i < |p.lines| && p.Content(i)
    ensures Scan(p, i) == ThenScan(p, ReadLine(p, i))
  {
    hide ScanEntry, ReadEntry, ScanItem, ReadItem;
    match Indentation(p.lines[i])
    case Err(_) =>
    case Ok(col) =>
      LeadingBlanksBound(p.lines[i]);
      var text := p.lines[i][col..];
      EntryReads(p, text, i + 1, col);
      if "- " <= text {
        var raw := Strip(text[2..]);
        ItemReads(p, raw, i + 1, col + 2);
        var r := ReadItem(p, raw, i + 1, col + 2);
        if r.Read? {
          ThenJoins([Item(col)], r.events, Scan(p, r.next));
        }
      }
  }

  // ---------------------------------------------------------------- the same lines elsewhere

  /** Two readings differ at most in where they go on. */
  predicate SameReading(r: Reading, s: Reading) {
    if r.Read? then s.Read? && s.events == r.events && s.block == r.block else s == r
  }

  lemma MappingLine(text: string, a: nat, b: nat, eval: Evaluator)
    ensures MappingOf(text, a, eval).Ok? <==> MappingOf(text, b, eval).Ok?
    ensures MappingOf(text, a, eval).Ok? ==> MappingOf(text, a, eval) == MappingOf(text, b, eval)
  {
    hide ScalarOf;
  }

  /** From lines `i` and `j` on the two documents agree. */
  ghost predicate SameRest(p: WorkflowParser, i: nat, q: WorkflowParser, j: nat) {
    i <= |p.lines| && j <= |q.lines| && p.eval == q.eval && p.lines[i..] == q.lines[j..]
  }

  lemma RestStep(p: WorkflowParser, i: nat, q: WorkflowParser, j: nat)
    requires SameRest(p, i, q, j)
    ensures |p.lines| - i == |q.lines| - j
    ensures i < |p.lines| ==> p.lines[i] == q.lines[j] && SameRest(p, i + 1, q, j + 1)
  {
    if i < |p.lines| {
      assert p.lines[i..][0] == q.lines[j..][0];
      assert p.lines[i + 1..] == p.lines[i..][1..] && q.lines[j + 1..] == q.lines[j..][1..];
    }
  }

  lemma {:induction false} BlockMoves(p: WorkflowParser, i: nat, q: WorkflowParser, j: nat, col: nat, acc: seq<string>)
    requires SameRest(p, i, q, j)
    ensures var (a, b) := (p.BlockLines(i, col, acc), q.BlockLines(j, col, acc));
      && (a.Ok? <==> b.Ok?)
      && (a.Ok? ==> a.value.0 == b.value.0 && a.value.1 - i == b.value.1 - j && SameRest(p, a.value.1, q, b.value.1))
    decreases |p.lines| - i
  {
    hide Strip, Indentation, SameRest, WorkflowParser.Dedent;
    RestStep(p, i, q, j);
    if i < |p.lines| {
      var line := p.lines[i];
      SameDedent(p, q, line, col);
      if Strip(line) == "" {
        BlockMoves(p, i + 1, q, j + 1, col, acc + [""]);
      } else if Indentation(line).Ok? && Indentation(line).value > col {
        BlockMoves(p, i + 1, q, j + 1, col, acc + [p.Dedent(line, col)]);
      }
    }
  }

  lemma SameDedent(p: WorkflowParser, q: WorkflowParser, line: string, col: nat)
    ensures p.Dedent(line, col) == q.Dedent(line, col)
  {
  }

  lemma EntryMoves(p: WorkflowParser, i: nat, q: WorkflowParser, j: nat, text: string, col: nat)
    requires SameRest(p, i, q, j)
    ensures var (r, s) := (ReadEntry(p, text, i, col), ReadEntry(q, text, j, col));
      SameReading(r, s) && (r.Read? ==> s.Read? && SameRest(p, r.next, q, s.next))
  {
    hide MappingOf, ScalarOf, BlockText, WorkflowParser.BlockLines;
    MappingLine(text, i, j, p.eval);
    BlockMoves(p, i, q, j, col, []);
  }

  lemma LineMoves(p: WorkflowParser, i: nat, q: WorkflowParser, j: nat)
    requires SameRest(p, i, q, j) && i < |p.lines| && j < |q.lines|
    ensures var (r, s) := (ReadLine(p, i), ReadLine(q, j));
      SameReading(r, s) && (r.Read? ==> s.Read? && SameRest(p, r.next, q, s.next))
  {
    hide ReadEntry, ScalarOf, Indentation;
    RestStep(p, i, q, j);
    if Indentation(p.lines[i]).Ok? {
      var col := Indentation(p.lines[i]).value;
      LeadingBlanksBound(p.lines[i]);
      ColumnIn(p.lines[i]);
      var text := p.lines[i][col..];
      EntryMoves(p, i + 1, q, j + 1, text, col);
      if "- " <= text {
        EntryMoves(p, i + 1, q, j + 1, Strip(text[2..]), col + 2);
      }
    }
  }

  lemma ColumnIn(line: string)
    requires Indentation(line).Ok?
    ensures Indentation(line).value <= |line|
  {
    LeadingBlanksBound(line);
  }

  /** The pass reads the same from the same lines, wherever they lie. */
  lemma {:induction false} ScanMoves(p: WorkflowParser, i: nat, q: WorkflowParser, j: nat)
    requires SameRest(p, i, q, j)
    ensures Scan(p, i) == Scan(q, j)
    decreases |p.lines| - i
  {
    hide SameRest, ReadLine, ScanEntry, ScanItem, Strip;
    RestBounds(p, i, q, j);
    RestStep(p, i, q, j);
    if i < |p.lines| {
      if p.Content(i) {
        LineReads(p, i);
        LineReads(q, j);
        LineMoves(p, i, q, j);
        var r := ReadLine(p, i);
        if r.Read? {
          ScanMoves(p, r.next, q, ReadLine(q, j).next);
        }
      } else {
        ScanMoves(p, i + 1, q, j + 1);
      }
    }
  }

  lemma RestBounds(p: WorkflowParser, i: nat, q: WorkflowParser, j: nat)
    requires SameRest(p, i, q, j)
    ensures i <= |p.lines| && j <= |q.lines|
  {
  }

  // ---------------------------------------------------------------- inserting a line

  /** A blank line or a comment. */
  predicate Noise(line: string) {
    Strip(line) == "" || Strip(line)[0] == '#'
  }

  function Insert(p: WorkflowParser, i: nat, line: string): WorkflowParser
    requires i <= |p.lines|
  {
    WorkflowParser(p.lines[..i] + [line] + p.lines[i..], p.eval)
  }

  /** Line `i` is outside block scalars, and not right behind one, for the pass that starts at `k`. */
  predicate Free(p: WorkflowParser, k: nat, i: nat)
    requires k <= i <= |p.lines|
    decreases i - k
  {
    if k == i then true
    else if !p.Content(k) then Free(p, k + 1, i)
    else
      match ReadLine(p, k)
      case Bad => true
      case BadBlock => false
      case Read(_, next, block) => next <= i && (block ==> next < i) && Free(p, next, i)
  }

  lemma InsertLines(p: WorkflowParser, i: nat, line: string)
    requires i <= |p.lines|
    ensures var q := Insert(p, i, line);
      && |q.lines| == |p.lines| + 1 && q.eval == p.eval && q.lines[i] == line
      && (forall k :: 0 <= k < i ==> q.lines[k] == p.lines[k]) && SameRest(q, i + 1, p, i)
  {
    assert Insert(p, i, line).lines[i + 1..] == p.lines[i..];
  }

  /** A block scalar that ends before line `i` does not see the line inserted there. */
  lemma {:induction false} BlockUnmoved(
    p: WorkflowParser, q: WorkflowParser, i: nat, k: nat, col: nat, acc: seq<string>)
    requires k <= i <= |p.lines| && i <= |q.lines| && forall m :: 0 <= m < i ==> q.lines[m] == p.lines[m]
    requires p.BlockLines(k, col, acc).Ok? && p.BlockLines(k, col, acc).value.1 < i
    ensures q.BlockLines(k, col, acc) == p.BlockLines(k, col, acc)
    decreases i - k
  {
    hide Strip, Indentation, WorkflowParser.Dedent;
    if k < i {
      var line := p.lines[k];
      SameDedent(p, q, line, col);
      if Strip(line) == "" {
        BlockUnmoved(p, q, i, k + 1, col, acc + [""]);
      } else if Indentation(line).Ok? && Indentation(line).value > col {
        BlockUnmoved(p, q, i, k + 1, col, acc + [p.Dedent(line, col)]);
      }
    }
  }

  lemma EntryUnmoved(p: WorkflowParser, q: WorkflowParser, i: nat, k: nat, text: string, col: nat)
    requires k <= i <= |p.lines| && i <= |q.lines| && forall m :: 0 <= m < i ==> q.lines[m] == p.lines[m]
    requires p.eval == q.eval && ReadEntry(p, text, k, col) != BadBlock
    requires ReadEntry(p, text, k, col).Read? && ReadEntry(p, text, k, col).block ==>
      ReadEntry(p, text, k, col).next < i
    ensures ReadEntry(q, text, k, col) == ReadEntry(p, text, k, col)
  {
    hide MappingOf, ScalarOf, BlockText, WorkflowParser.BlockLines;
    if p.BlockLines(k, col, []).Ok? && p.BlockLines(k, col, []).value.1 < i {
      BlockUnmoved(p, q, i, k, col, []);
    }
  }

  lemma LineUnmoved(p: WorkflowParser, q: WorkflowParser, i: nat, k: nat)
    requires k < i <= |p.lines| && i <= |q.lines| && forall m :: 0 <= m < i ==> q.lines[m] == p.lines[m]
    requires p.eval == q.eval && ReadLine(p, k) != BadBlock
    requires ReadLine(p, k).Read? && ReadLine(p, k).block ==> ReadLine(p, k).next < i
    ensures ReadLine(q, k) == ReadLine(p, k)
  {
    hide ReadEntry, ScalarOf, Indentation;
    if Indentation(p.lines[k]).Ok? {
      var col := Indentation(p.lines[k]).value;
      ColumnIn(p.lines[k]);
      LeadingBlanksBound(p.lines[k]);
      var text := p.lines[k][col..];
      if !("- " <= text) {
        EntryUnmoved(p, q, i, k + 1, text, col);
      } else if ':' in Strip(text[2..]) {
        EntryUnmoved(p, q, i, k + 1, Strip(text[2..]), col + 2);
      }
    }
  }

  lemma {:induction false} ScanInserted(p: WorkflowParser, i: nat, line: string, k: nat)
    requires k <= i <= |p.lines| && Noise(line) && Free(p, k, i)
    ensures Scan(Insert(p, i, line), k) == Scan(p, k)
    decreases i - k
  {
    hide Scan, ReadLine, Strip, SameRest;
    var q := Insert(p, i, line);
    InsertLines(p, i, line);
    hide Insert;
    if k == i {
      SkipLine(q, i);
      ScanMoves(q, i + 1, p, i);
    } else if !p.Content(k) {
      SkipLine(p, k);
      SkipLine(q, k);
      ScanInserted(p, i, line, k + 1);
    } else {
      LineReads(p, k);
      LineReads(q, k);
      LineUnmoved(p, q, i, k);
      var r := ReadLine(p, k);
      if r.Read? {
        ScanInserted(p, i, line, r.next);
      }
    }
  }

  lemma SkipLine(p: WorkflowParser, i: nat)
    requires i < |p.lines| && !p.Content(i)
    ensures Scan(p, i) == Scan(p, i + 1)
  {
  }

  /** Blank lines and comments outside block scalars leave what a document parses to as it is. */
  lemma NoiseIgnored(p: WorkflowParser, i: nat, line: string, v: Value)
    requires i <= |p.lines| && Noise(line) && Free(p, 0, i)
    ensures Insert(p, i, line).Document() == Ok(v) <==> p.Document() == Ok(v)
  {
    hide *;
    ScanInserted(p, i, line, 0);
    DocumentIff(p, v);
    DocumentIff(Insert(p, i, line), v);
  }
}
