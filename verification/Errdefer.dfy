/**
  The brace-tracking audit of unreachable `errdefer`s (scripts/dead-errdefer-audit.py).
  The regular expressions of the script are parameters.
 */
module Errdefer {
  import opened Wrappers
  import opened Text
  import opened Parentheses

  /**
    What the script's patterns find in a line: the parenthesis that ends the match of
    a function declaration, an `errdefer`, a trailing `{` that opens a container type.
   */
  datatype Patterns = Patterns(
    fn: string -> Option<nat>,
    errdefer: string -> bool,
    container: string -> bool)

  // ---------------------------------------------------------------- stripping literals

  /** The characters of a literal after its opening quote, its closing quote included. */
  function LiteralEnd(rest: string, quote: char): (n: nat)
    ensures n <= |rest|
    decreases |rest|
  {
    if rest == "" then 0
    else if rest[0] == '\\' then (if |rest| == 1 then 1 else 2 + LiteralEnd(rest[2..], quote))
    else if rest[0] == quote then 1
    else 1 + LiteralEnd(rest[1..], quote)
  }

  function Stripped(rest: string): string
    decreases |rest|
  {
    if rest == "" || "//" <= rest || "\\\\" <= rest then ""
    else if rest[0] == '"' || rest[0] == '\'' then
      [rest[0], rest[0]] + Stripped(rest[1 + LiteralEnd(rest[1..], rest[0])..])
    else [rest[0]] + Stripped(rest[1..])
  }

  method SkipLiteral(line: string, start: nat, quote: char) returns (index: nat)
    requires start <= |line| && quote != '\\'
    ensures index == start + LiteralEnd(line[start..], quote)
  {
    index := start;
    var end := |line|;
    while index < end
      invariant start <= index <= end
      invariant LiteralEnd(line[start..], quote) == index - start + LiteralEnd(line[index..], quote)
    {
      assert line[index..][1..] == line[index + 1..];
      if line[index] == '\\' {
        if index + 1 < end {
          assert line[index..][2..] == line[index + 2..];
        }
        index := if index + 2 <= end then index + 2 else end;
        continue;
      }
      if line[index] == quote {
        index := index + 1;
        return;
      }
      index := index + 1;
    }
  }

  lemma StrippedStep(rest: string)
    requires rest != ""
    ensures "//" <= rest || "\\\\" <= rest ==> Stripped(rest) == ""
    ensures !("//" <= rest) && !("\\\\" <= rest) && (rest[0] == '"' || rest[0] == '\'') ==>
      Stripped(rest) == [rest[0], rest[0]] + Stripped(rest[1 + LiteralEnd(rest[1..], rest[0])..])
    ensures !("//" <= rest) && !("\\\\" <= rest) && rest[0] != '"' && rest[0] != '\'' ==>
      Stripped(rest) == [rest[0]] + Stripped(rest[1..])
  {
    hide LiteralEnd;
  }

  method StripNoise(line: string) returns (out: string)
    ensures out == Stripped(line)
  {
    hide Stripped, LiteralEnd;
    out := "";
    var index := 0;
    assert line[0..] == line;
    while index < |line|
      invariant index <= |line|
      invariant Stripped(line) == out + Stripped(line[index..])
    {
      var c := line[index];
      StrippedStep(line[index..]);
      assert line[index..][1..] == line[index + 1..];
      if "//" <= line[index..] {
        break;
      }
      if "\\\\" <= line[index..] {
        break;
      }
      if c == '"' || c == '\'' {
        var next := SkipLiteral(line, index + 1, c);
        assert line[index..][next - index..] == line[next..];
        out, index := out + [c, c], next;
        continue;
      }
      out, index := out + [c], index + 1;
    }
    StrippedOfNothing();
    assert index == |line| ==> line[index..] == "";
    assert out + "" == out;
  }

  lemma StrippedOfNothing()
    ensures Stripped("") == ""
  {
  }

  // ---------------------------------------------------------------- signatures

  function Count(s: string, c: char): nat {
    if s == "" then 0 else Count(s[..|s| - 1], c) + (if s[|s| - 1] == c then 1 else 0)
  }

  lemma {:induction false} CountIs(s: string, c: char)
    ensures Count(s, c) == multiset(s)[c]
  {
    if s != "" {
      CountIs(s[..|s| - 1], c);
      assert s == s[..|s| - 1] + [s[|s| - 1]];
      assert multiset(s) == multiset(s[..|s| - 1]) + multiset{s[|s| - 1]};
    }
  }

  function Excess(s: string): int {
    Count(s, '{') as int - Count(s, '}') as int
  }

  /** Lines `index..end`, joined by blanks. */
  function Signature(lines: seq<string>, index: nat, end: nat): string
    requires index <= end < |lines|
    decreases end
  {
    if index == end then lines[index] else Signature(lines, index, end - 1) + " " + lines[end]
  }

  predicate EndsWith(s: string, c: char) {
    s != "" && s[|s| - 1] == c
  }

  /** The accumulated text ends a declaration without a body. */
  predicate EndsPrototype(signature: string) {
    EndsWith(Rstrip(signature), ';')
  }

  /** The accumulated text ends in a brace the script takes for the opening of a function body. */
  predicate OpensBody(signature: string, pats: Patterns) {
    var text := Rstrip(signature);
    EndsWith(text, '{') && Excess(text) == 1 && !pats.container(text)
  }

  const REACH: nat := 60

  function BodyLineFrom(lines: seq<string>, index: nat, end: nat, pats: Patterns): (r: Option<nat>)
    requires index <= end < |lines|
    ensures r.Some? ==> end <= r.value < |lines|
    decreases |lines| - end
  {
    var signature := Signature(lines, index, end);
    if EndsPrototype(signature) then None
    else if OpensBody(signature, pats) then Some(end)
    else if end + 1 >= |lines| || end + 1 > index + REACH then None
    else BodyLineFrom(lines, index, end + 1, pats)
  }

  /** Everything between the parameter list and the body's brace. */
  function ReturnType(signature: string, pats: Patterns): string {
    match pats.fn(signature)
    case None => ""
    case Some(paren) =>
      match FirstClose(signature, paren, paren)
      case None => ""
      case Some(close) =>
        var tail := Rstrip(signature[close + 1..]);
        Strip(if tail == "" then "" else tail[..|tail| - 1])
  }

  method ReturnTypeAfterParams(signature: string, pats: Patterns) returns (r: string)
    ensures r == ReturnType(signature, pats)
  {
    hide Rstrip, Strip;
    var found := pats.fn(signature);
    if found == None {
      return "";
    }
    var opening := found.value;
    var depth := 0;
    var position := opening;
    while position < |signature|
      invariant opening <= position
      invariant position <= |signature| ==> depth == Depth(signature[opening..position])
      invariant FirstClose(signature, opening, opening) == FirstClose(signature, opening, position)
    {
      assert signature[opening..position + 1][..position - opening] == signature[opening..position];
      if signature[position] == '(' {
        depth := depth + 1;
      } else if signature[position] == ')' {
        depth := depth - 1;
        if depth == 0 {
          var tail := Rstrip(signature[position + 1..]);
          return Strip(if tail == "" then "" else tail[..|tail| - 1]);
        }
      }
      position := position + 1;
    }
    return "";
  }

  function BodyOf(lines: seq<string>, index: nat, pats: Patterns): (r: Option<(nat, string)>)
    requires index < |lines|
    ensures r.Some? ==> index <= r.value.0 < |lines|
  {
    match BodyLineFrom(lines, index, index, pats)
    case None => None
    case Some(end) => Some((end, ReturnType(Signature(lines, index, end), pats)))
  }

  method ReturnTypeOf(lines: seq<string>, index: nat, pats: Patterns) returns (r: Option<(nat, string)>)
    requires index < |lines|
    ensures r == BodyOf(lines, index, pats)
  {
    var signature := lines[index];
    var end := index;
    while true
      invariant index <= end < |lines|
      invariant signature == Signature(lines, index, end)
      invariant BodyLineFrom(lines, index, index, pats) == BodyLineFrom(lines, index, end, pats)
      decreases |lines| - end
    {
      var text := Rstrip(signature);
      if EndsWith(text, ';') {
        return None;
      }
      if EndsWith(text, '{') && Count(text, '{') == Count(text, '}') + 1 && !pats.container(text) {
        break;
      }
      end := end + 1;
      if end >= |lines| || end > index + REACH {
        return None;
      }
      signature := signature + " " + lines[end];
    }
    var returnType := ReturnTypeAfterParams(signature, pats);
    return Some((end, returnType));
  }

  // ---------------------------------------------------------------- the scan

  /** The return type noted for each line taken to open a function body; a later declaration wins. */
  function FnOpen(lines: seq<string>, n: nat, pats: Patterns): (m: map<nat, string>)
    requires n <= |lines|
  {
    if n == 0 then map[]
    else
      var m := FnOpen(lines, n - 1, pats);
      if pats.fn(lines[n - 1]) == None then m
      else
        match BodyOf(lines, n - 1, pats)
        case None => m
        case Some((end, returnType)) => m[end := returnType]
  }

  /** `s.rfind(c)` */
  function Rfind(s: string, c: char): (i: int)
    ensures -1 <= i < |s| && (i >= 0 ==> s[i] == c) && forall k :: i < k < |s| ==> s[k] != c
  {
    if s == "" then -1 else if s[|s| - 1] == c then |s| - 1 else Rfind(s[..|s| - 1], c)
  }

  /** What one character does to the brace stack; an opening brace pushes a frame. */
  datatype Event = Open(frame: Option<string>) | Close | Other

  function LineEvents(line: string, fn: Option<string>): seq<Event> {
    var body := if fn.Some? then Rfind(line, '{') else -1;
    seq(|line|, i requires 0 <= i < |line| =>
      if line[i] == '{' then Open(if i == body then fn else None)
      else if line[i] == '}' then Close
      else Other)
  }

  type Stack = seq<Option<string>>

  /** The brace stack after some events, or None once a brace closed nothing. */
  function Run(events: seq<Event>): Option<Stack> {
    if events == [] then Some([])
    else
      match Run(events[..|events| - 1])
      case None => None
      case Some(stack) =>
        match events[|events| - 1]
        case Open(frame) => Some(stack + [frame])
        case Close => if stack == [] then None else Some(stack[..|stack| - 1])
        case Other => Some(stack)
  }

  /** The innermost frame that belongs to a function. */
  function Enclosing(stack: Stack): Option<string> {
    if stack == [] then None
    else if stack[|stack| - 1].Some? then stack[|stack| - 1]
    else Enclosing(stack[..|stack| - 1])
  }

  predicate Dead(returnType: string) {
    '!' !in returnType && returnType != "type" && returnType != "anyerror"
  }

  datatype Finding = Finding(line: nat, returnType: string, text: string)
  datatype Desync = Unmatched(line: nat) | Unclosed(count: nat)

  function Get(m: map<nat, string>, i: nat): Option<string> {
    if i in m then Some(m[i]) else None
  }

  function StripAll(raw: seq<string>): (r: seq<string>)
    ensures |r| == |raw| && forall i :: 0 <= i < |raw| ==> r[i] == Stripped(raw[i])
  {
    seq(|raw|, i requires 0 <= i < |raw| => Stripped(raw[i]))
  }

  /** The events of the first `n` lines. */
  function Events(lines: seq<string>, fnOpen: map<nat, string>, n: nat): seq<Event>
    requires n <= |lines|
  {
    if n == 0 then [] else Events(lines, fnOpen, n - 1) + LineEvents(lines[n - 1], Get(fnOpen, n - 1))
  }

  /** The finding of line `i` when the brace stack at its start is `stack`. */
  function FindingAt(raw: string, line: string, i: nat, stack: Stack, pats: Patterns): seq<Finding> {
    var enclosing := Enclosing(stack);
    if pats.errdefer(line) && enclosing.Some? && Dead(enclosing.value) then
      [Finding(i + 1, enclosing.value, Strip(raw))]
    else []
  }

  lemma RunStep(events: seq<Event>, e: Event)
    requires Run(events).Some?
    ensures var stack := Run(events).value;
      Run(events + [e]) == match e
        case Open(frame) => Some(stack + [frame])
        case Close => if stack == [] then None else Some(stack[..|stack| - 1])
        case Other => Some(stack)
  {
    assert (events + [e])[..|events|] == events;
  }

  method PushBraces(line: string, fn: Option<string>, ghost before: seq<Event>, start: Stack)
    returns (r: Option<Stack>)
    requires Run(before) == Some(start)
    ensures r == Run(before + LineEvents(line, fn))
  {
    hide Run;
    ghost var events := LineEvents(line, fn);
    var stack := start;
    var body := if fn.Some? then Rfind(line, '{') else -1;
    assert before + events[..0] == before;
    for column := 0 to |line|
      invariant Run(before + events[..column]) == Some(stack)
    {
      assert before + events[..column + 1] == (before + events[..column]) + [events[column]];
      RunStep(before + events[..column], events[column]);
      if line[column] == '{' {
        stack := stack + [if column == body then fn else None];
      } else if line[column] == '}' {
        if stack == [] {
          RunStaysNone(before + events[..column + 1], events[column + 1..]);
          assert before + events[..column + 1] + events[column + 1..] == before + events;
          return None;
        }
        stack := stack[..|stack| - 1];
      }
    }
    assert events[..|line|] == events;
    return Some(stack);
  }

  lemma {:induction false} RunStaysNone(a: seq<Event>, b: seq<Event>)
    requires Run(a) == None
    ensures Run(a + b) == None
    decreases |b|
  {
    if b == [] {
      assert a + b == a;
    } else {
      assert (a + b)[..|a + b| - 1] == a + b[..|b| - 1];
      RunStaysNone(a, b[..|b| - 1]);
    }
  }

  ghost function StackAt(lines: seq<string>, fnOpen: map<nat, string>, n: nat): Option<Stack>
    requires n <= |lines|
  {
    Run(Events(lines, fnOpen, n))
  }

  /** The findings of the first `n` lines, each judged by the stack at its start. */
  ghost function Findings(raw: seq<string>, fnOpen: map<nat, string>, n: nat, pats: Patterns): seq<Finding>
    requires n <= |raw|
  {
    if n == 0 then []
    else
      var lines := StripAll(raw);
      var stack := match StackAt(lines, fnOpen, n - 1) case Some(stack) => stack case None => [];
      Findings(raw, fnOpen, n - 1, pats) + FindingAt(raw[n - 1], lines[n - 1], n - 1, stack, pats)
  }

  /** What the scan returns, by the brace stacks. */
  ghost predicate Outcome(raw: seq<string>, pats: Patterns, r: Result<seq<Finding>, Desync>) {
    var lines := StripAll(raw);
    var fnOpen := FnOpen(lines, |lines|, pats);
    match r
    case Ok(findings) =>
      StackAt(lines, fnOpen, |lines|) == Some([]) && findings == Findings(raw, fnOpen, |lines|, pats)
    case Err(Unmatched(n)) =>
      1 <= n <= |lines| && StackAt(lines, fnOpen, n - 1).Some? && StackAt(lines, fnOpen, n) == None
    case Err(Unclosed(k)) =>
      StackAt(lines, fnOpen, |lines|).Some? && |StackAt(lines, fnOpen, |lines|).value| == k > 0
  }

  method OpenBodies(lines: seq<string>, pats: Patterns) returns (fnOpen: map<nat, string>)
    ensures fnOpen == FnOpen(lines, |lines|, pats)
  {
    fnOpen := map[];
    for i := 0 to |lines|
      invariant fnOpen == FnOpen(lines, i, pats)
    {
      if pats.fn(lines[i]) == None {
        continue;
      }
      var found := ReturnTypeOf(lines, i, pats);
      if found != None {
        fnOpen := fnOpen[found.value.0 := found.value.1];
      }
    }
  }

  method EnclosingFrame(stack: Stack) returns (r: Option<string>)
    ensures r == Enclosing(stack)
  {
    var n := |stack|;
    assert stack[..n] == stack;
    while n > 0
      invariant n <= |stack|
      invariant Enclosing(stack) == Enclosing(stack[..n])
    {
      assert stack[..n][..n - 1] == stack[..n - 1];
      if stack[n - 1].Some? {
        return stack[n - 1];
      }
      n := n - 1;
    }
    return None;
  }

  method Scan(raw: seq<string>, pats: Patterns) returns (r: Result<seq<Finding>, Desync>)
    ensures Outcome(raw, pats, r)
  {
    hide Stripped, Run, BodyOf, FnOpen, Enclosing, Dead, Strip, LineEvents;
    var stripped: seq<string> := [];
    for i := 0 to |raw|
      invariant |stripped| == i && forall k :: 0 <= k < i ==> stripped[k] == Stripped(raw[k])
    {
      var line := StripNoise(raw[i]);
      stripped := stripped + [line];
    }
    assert stripped == StripAll(raw);
    var fnOpen := OpenBodies(stripped, pats);
    var findings: seq<Finding> := [];
    var stack: Stack := [];
    RunOfNothing();
    for i := 0 to |stripped|
      invariant StackAt(stripped, fnOpen, i) == Some(stack)
      invariant findings == Findings(raw, fnOpen, i, pats)
    {
      var line := stripped[i];
      if pats.errdefer(line) {
        var enclosing := EnclosingFrame(stack);
        if enclosing.Some? && Dead(enclosing.value) {
          findings := findings + [Finding(i + 1, enclosing.value, Strip(raw[i]))];
        }
      }
      var pushed := PushBraces(line, Get(fnOpen, i), Events(stripped, fnOpen, i), stack);
      if pushed == None {
        return Err(Unmatched(i + 1));
      }
      stack := pushed.value;
    }
    if stack != [] {
      return Err(Unclosed(|stack|));
    }
    return Ok(findings);
  }

  lemma RunOfNothing()
    ensures Run([]) == Some([])
  {
  }
}
