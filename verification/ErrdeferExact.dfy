/**
  What the `errdefer` audit computes (scripts/dead-errdefer-audit.py): where a
  signature ends, when the scan fails, and what it reports by its own table of bodies.
  Which of those bodies are functions is the subject of ErrdeferOwn and ErrdeferFunctions.
 */
module ErrdeferExact {
  import opened Wrappers
  import opened Text
  import opened Parentheses
  import opened Errdefer

  // ---------------------------------------------------------------- stripping

  lemma {:induction false} StrippedStart(s: string)
    ensures Stripped(s) != "" ==> s != "" && Stripped(s)[0] == s[0]
  {
    hide LiteralEnd;
  }

  /** A stripped line holds nothing to strip: its literals are empty and no comment is left. */
  lemma {:induction false} StripIsIdempotent(s: string)
    ensures Stripped(Stripped(s)) == Stripped(s)
    decreases |s|
  {
    hide Stripped, LiteralEnd;
    StrippedOfNothing();
    if s != "" {
      StrippedStep(s);
      var r := Stripped(s);
      if r != "" {
        StrippedStep(r);
        if s[0] == '"' || s[0] == '\'' {
          var tail := s[1 + LiteralEnd(s[1..], s[0])..];
          StripIsIdempotent(tail);
          assert r[1..] == [s[0]] + Stripped(tail);
          ClosedAtOnce(s[0], Stripped(tail));
          assert r[2..] == Stripped(tail);
        } else {
          StripIsIdempotent(s[1..]);
          StrippedStart(s[1..]);
          assert r[1..] == Stripped(s[1..]);
          assert |s| >= 2 && |r| >= 2 ==> s[..2] == r[..2];
        }
      }
    }
  }

  lemma ClosedAtOnce(quote: char, rest: string)
    requires quote != '\\'
    ensures LiteralEnd([quote] + rest, quote) == 1
  {
  }

  /** One element of a line: a code character, or a literal with its plain and escaped characters. */
  datatype Chunk = Code(c: char) | Literal(quote: char, body: seq<Letter>)
  datatype Letter = Plain(c: char) | Escape(c: char)

  /** What ends a line: nothing, a comment or multi-line string, or a literal left open. */
  datatype Ending = Nothing | Comment(text: string) | LeftOpen(quote: char, body: seq<Letter>, backslash: bool)

  predicate IsQuote(c: char) {
    c == '"' || c == '\''
  }

  predicate CommentStarts(s: string) {
    "//" <= s || "\\\\" <= s
  }

  /** The letters of a literal: an unescaped one is neither its quote nor a backslash. */
  predicate PlainBody(body: seq<Letter>, quote: char) {
    forall i :: 0 <= i < |body| && body[i].Plain? ==> body[i].c != quote && body[i].c != '\\'
  }

  function BodyText(body: seq<Letter>): string {
    if body == [] then ""
    else (match body[0] case Plain(c) => [c] case Escape(c) => ['\\', c]) + BodyText(body[1..])
  }

  function ChunkText(chunk: Chunk): string {
    match chunk
    case Code(c) => [c]
    case Literal(quote, body) => [quote] + BodyText(body) + [quote]
  }

  function EndText(ending: Ending): string {
    match ending
    case Nothing => ""
    case Comment(text) => text
    case LeftOpen(quote, body, backslash) => [quote] + BodyText(body) + (if backslash then "\\" else "")
  }

  function LineText(chunks: seq<Chunk>, ending: Ending): string {
    if chunks == [] then EndText(ending) else ChunkText(chunks[0]) + LineText(chunks[1..], ending)
  }

  predicate Lexical(chunks: seq<Chunk>, ending: Ending) {
    if chunks == [] then
      match ending
      case Nothing => true
      case Comment(text) => CommentStarts(text)
      case LeftOpen(quote, body, _) => IsQuote(quote) && PlainBody(body, quote)
    else
      && Lexical(chunks[1..], ending)
      && match chunks[0]
         case Code(c) => !IsQuote(c) && !CommentStarts(LineText(chunks, ending))
         case Literal(quote, body) => IsQuote(quote) && PlainBody(body, quote)
  }

  /** Code stays, literals become empty, comments go. */
  function CodeOnly(chunks: seq<Chunk>, ending: Ending): string {
    if chunks == [] then (if ending.LeftOpen? then [ending.quote, ending.quote] else "")
    else
      (match chunks[0] case Code(c) => [c] case Literal(quote, _) => [quote, quote]) + CodeOnly(chunks[1..], ending)
  }

  /** The letters up to the closing quote, and what is left from there. */
  function Letters(rest: string, quote: char): (r: (seq<Letter>, string))
    requires quote != '\\'
    ensures rest == BodyText(r.0) + r.1 && |r.1| <= |rest| && PlainBody(r.0, quote)
    ensures r.1 == "" || r.1 == "\\" || r.1[0] == quote
    decreases |rest|
  {
    if rest == "" || rest == "\\" || rest[0] == quote then ([], rest)
    else if rest[0] == '\\' then
      var (body, left) := Letters(rest[2..], quote);
      ([Escape(rest[1])] + body, left)
    else
      var (body, left) := Letters(rest[1..], quote);
      ([Plain(rest[0])] + body, left)
  }

  function ChunksOf(line: string): (seq<Chunk>, Ending)
    decreases |line|
  {
    if line == "" then ([], Nothing)
    else if CommentStarts(line) then ([], Comment(line))
    else if IsQuote(line[0]) then
      var (body, left) := Letters(line[1..], line[0]);
      if left != "" && left[0] == line[0] then
        var (chunks, ending) := ChunksOf(left[1..]);
        ([Literal(line[0], body)] + chunks, ending)
      else ([], LeftOpen(line[0], body, left == "\\"))
    else
      var (chunks, ending) := ChunksOf(line[1..]);
      ([Code(line[0])] + chunks, ending)
  }

  /** Every line is made of chunks and an ending. */
  lemma {:induction false} ChunksMakeLine(line: string)
    ensures Lexical(ChunksOf(line).0, ChunksOf(line).1) && LineText(ChunksOf(line).0, ChunksOf(line).1) == line
    decreases |line|
  {
    hide Letters, PlainBody, BodyText;
    if line != "" && !CommentStarts(line) {
      if IsQuote(line[0]) {
        var (body, left) := Letters(line[1..], line[0]);
        if left != "" && left[0] == line[0] {
          ChunksMakeLine(left[1..]);
          assert line == ChunkText(Literal(line[0], body)) + left[1..];
        }
      } else {
        ChunksMakeLine(line[1..]);
        assert line == [line[0]] + line[1..];
      }
    }
  }

  lemma {:induction false} LiteralSkipped(body: seq<Letter>, quote: char, rest: string)
    requires quote != '\\' && PlainBody(body, quote)
    ensures LiteralEnd(BodyText(body) + [quote] + rest, quote) == |BodyText(body)| + 1
  {
    var s := BodyText(body) + [quote] + rest;
    if body != [] {
      LiteralSkipped(body[1..], quote, rest);
      match body[0]
      case Plain(c) => assert s[0] == c && s[1..] == BodyText(body[1..]) + [quote] + rest;
      case Escape(c) => assert s[0] == '\\' && s[2..] == BodyText(body[1..]) + [quote] + rest;
    }
  }

  lemma {:induction false} OpenSkipped(body: seq<Letter>, quote: char, rest: string)
    requires quote != '\\' && PlainBody(body, quote) && (rest == "" || rest == "\\")
    ensures LiteralEnd(BodyText(body) + rest, quote) == |BodyText(body) + rest|
  {
    var s := BodyText(body) + rest;
    if body != [] {
      OpenSkipped(body[1..], quote, rest);
      match body[0]
      case Plain(c) => assert s[0] == c && s[1..] == BodyText(body[1..]) + rest;
      case Escape(c) => assert s[0] == '\\' && s[2..] == BodyText(body[1..]) + rest;
    } else {
      assert s == rest;
    }
  }

  lemma StripCode(c: char, rest: string)
    requires !IsQuote(c) && !CommentStarts([c] + rest)
    ensures Stripped([c] + rest) == [c] + Stripped(rest)
  {
    hide Stripped, LiteralEnd;
    StrippedStep([c] + rest);
    assert ([c] + rest)[1..] == rest;
  }

  lemma StripLiteral(quote: char, body: seq<Letter>, rest: string)
    requires IsQuote(quote) && PlainBody(body, quote)
    ensures Stripped([quote] + BodyText(body) + [quote] + rest) == [quote, quote] + Stripped(rest)
  {
    hide Stripped, LiteralEnd, BodyText;
    var line := [quote] + BodyText(body) + [quote] + rest;
    StrippedStep(line);
    LiteralSkipped(body, quote, rest);
    assert line[1..] == BodyText(body) + [quote] + rest;
    assert line[1 + |BodyText(body)| + 1..] == rest;
  }

  lemma StripEnding(ending: Ending)
    requires Lexical([], ending)
    ensures Stripped(EndText(ending)) == CodeOnly([], ending)
  {
    hide Stripped, LiteralEnd, BodyText;
    var line := EndText(ending);
    StrippedOfNothing();
    match ending
    case Nothing =>
    case Comment(text) => StrippedStep(text);
    case LeftOpen(quote, body, backslash) =>
      var rest := if backslash then "\\" else "";
      StrippedStep(line);
      OpenSkipped(body, quote, rest);
      assert line[1..] == BodyText(body) + rest;
      assert line[|line|..] == "";
  }

  /** Stripping keeps exactly the code of a line, whatever its literals and comments hold. */
  lemma {:induction false} StripKeepsCode(chunks: seq<Chunk>, ending: Ending)
    requires Lexical(chunks, ending)
    ensures Stripped(LineText(chunks, ending)) == CodeOnly(chunks, ending)
  {
    hide Stripped, BodyText, EndText;
    if chunks != [] {
      StripKeepsCode(chunks[1..], ending);
      var rest := LineText(chunks[1..], ending);
      match chunks[0]
      case Code(c) => StripCode(c, rest);
      case Literal(quote, body) => StripLiteral(quote, body, rest);
    } else {
      StripEnding(ending);
    }
  }

  /** So stripping keeps exactly the code of every line. */
  lemma StripIsCode(line: string)
    ensures exists chunks, ending ::
      Lexical(chunks, ending) && LineText(chunks, ending) == line && Stripped(line) == CodeOnly(chunks, ending)
  {
    hide *;
    var (chunks, ending) := ChunksOf(line);
    ChunksMakeLine(line);
    StripKeepsCode(chunks, ending);
    assert Lexical(chunks, ending) && LineText(chunks, ending) == line && Stripped(line) == CodeOnly(chunks, ending);
  }

  // ---------------------------------------------------------------- signatures

  predicate Fails(lines: seq<string>, index: nat, k: nat, pats: Patterns)
    requires index <= k < |lines|
  {
    Unended(Signature(lines, index, k)) && !OpensBody(Signature(lines, index, k), pats)
  }

  /** The text does not end in a `;`, white space apart. */
  predicate Unended(signature: string) {
    var text := Rstrip(signature);
    text == "" || text[|text| - 1] != ';'
  }

  /** The body line is the least line within reach at which the accumulated text opens a body. */
  lemma {:induction false} BodyLineIsLeast(lines: seq<string>, index: nat, from: nat, end: nat, pats: Patterns)
    requires index <= from <= index + 60 && from < |lines|
    ensures BodyLineFrom(lines, index, from, pats) == Some(end)
      <==>
      && from <= end < |lines| && end <= index + 60
      && OpensBody(Signature(lines, index, end), pats)
      && forall k :: from <= k < end ==> Fails(lines, index, k, pats)
    decreases |lines| - from
  {
    hide OpensBody, Unended, EndsPrototype, Signature;
    OpenIsNoPrototype(lines, index, from, pats);
    if Fails(lines, index, from, pats) && from + 1 < |lines| && from + 1 <= index + 60 {
      BodyLineIsLeast(lines, index, from + 1, end, pats);
    }
  }

  /** The text of some line from the declaration's on ends in a `;` before line `end`. */
  predicate EndedBefore(lines: seq<string>, index: nat, end: int)
    requires end < |lines|
  {
    exists k :: index <= k < end && !Unended(Signature(lines, index, k))
  }

  /** A declaration has no body exactly if the text of some line ends in a `;` before any opens one within reach. */
  lemma NoBodyIff(lines: seq<string>, index: nat, pats: Patterns)
    requires index < |lines|
    ensures BodyOf(lines, index, pats) == None
      <==>
      forall end :: index <= end < |lines| && end <= index + 60 && OpensBody(Signature(lines, index, end), pats) ==>
        EndedBefore(lines, index, end)
  {
    hide OpensBody, Unended, Signature, ReturnType, BodyLineFrom;
    if BodyOf(lines, index, pats).Some? {
      var end := BodyOf(lines, index, pats).value.0;
      BodyLineIsLeast(lines, index, index, end, pats);
      forall k | index <= k < end ensures Unended(Signature(lines, index, k)) {
        assert Fails(lines, index, k, pats);
      }
      assert OpensBody(Signature(lines, index, end), pats);
    } else {
      forall end | index <= end < |lines| && end <= index + 60 && OpensBody(Signature(lines, index, end), pats)
        ensures EndedBefore(lines, index, end)
      {
        LeastOpening(lines, index, end, pats);
      }
    }
  }

  /** Where no text before an opening one ended, the least opening one would have been found. */
  lemma {:induction false} LeastOpening(lines: seq<string>, index: nat, end: nat, pats: Patterns)
    requires index <= end < |lines| && end <= index + 60 && OpensBody(Signature(lines, index, end), pats)
    requires BodyLineFrom(lines, index, index, pats) == None
    ensures EndedBefore(lines, index, end)
  {
    hide OpensBody, Unended, Signature, BodyLineFrom;
    BodyLineIsLeast(lines, index, index, end, pats);
    var k :| index <= k < end && !Fails(lines, index, k, pats);
    if Unended(Signature(lines, index, k)) {
      LeastOpening(lines, index, k, pats);
    }
  }

  /** A declaration whose line, before any brace, ends in a `;` has no body. */
  lemma PrototypeHasNoBody(lines: seq<string>, index: nat, k: nat, pats: Patterns)
    requires index <= k < |lines| && forall j :: index <= j <= k ==> '{' !in lines[j]
    requires var text := Rstrip(lines[k]); text != "" && text[|text| - 1] == ';'
    ensures BodyOf(lines, index, pats) == None
  {
    hide OpensBody, Signature, ReturnType, BodyLineFrom, Rstrip;
    NoBodyIff(lines, index, pats);
    SignatureEnds(lines, index, k);
    forall end | index <= end < |lines| && OpensBody(Signature(lines, index, end), pats) ensures end > k {
      if end <= k {
        NoBraceNoBody(lines, index, end, pats);
      }
    }
    hide Unended;
    assert !Unended(Signature(lines, index, k));
  }

  lemma SignatureEnds(lines: seq<string>, index: nat, k: nat)
    requires index <= k < |lines| && Rstrip(lines[k]) != ""
    ensures var (text, line) := (Rstrip(Signature(lines, index, k)), Rstrip(lines[k]));
      text != "" && text[|text| - 1] == line[|line| - 1]
  {
    if k > index {
      RstripAppend(Signature(lines, index, k - 1) + " ", lines[k]);
    }
  }

  lemma {:induction false} NoBraceNoBody(lines: seq<string>, index: nat, end: nat, pats: Patterns)
    requires index <= end < |lines| && forall j :: index <= j <= end ==> '{' !in lines[j]
    ensures '{' !in Signature(lines, index, end) && !OpensBody(Signature(lines, index, end), pats)
  {
    hide Excess, Rstrip;
    if end > index {
      NoBraceNoBody(lines, index, end - 1, pats);
    }
    var signature := Signature(lines, index, end);
    RstripPrefix(signature);
    assert forall c :: c in Rstrip(signature) ==> c in signature;
  }

  lemma OpenIsNoPrototype(lines: seq<string>, index: nat, k: nat, pats: Patterns)
    requires index <= k < |lines|
    ensures EndsPrototype(Signature(lines, index, k)) <==> !Unended(Signature(lines, index, k))
    ensures OpensBody(Signature(lines, index, k), pats) ==> Unended(Signature(lines, index, k))
  {
  }

  lemma {:induction false} RstripAppend(s: string, t: string)
    ensures Rstrip(t) != "" ==> Rstrip(s + t) == s + Rstrip(t)
    ensures Rstrip(t) == "" ==> Rstrip(s + t) == Rstrip(s)
    decreases |t|
  {
    if t == "" {
      assert s + t == s;
    } else if IsSpace(t[|t| - 1]) {
      assert (s + t)[..|s + t| - 1] == s + t[..|t| - 1];
      RstripAppend(s, t[..|t| - 1]);
    }
  }

  /**
    The line that ends a signature ends in the last brace of the accumulated text,
    across blank lines too: nothing but white space follows the line's last `{`.
   */
  lemma BodyBrace(lines: seq<string>, index: nat, pats: Patterns)
    requires index < |lines| && BodyOf(lines, index, pats).Some?
    ensures var end := BodyOf(lines, index, pats).value.0;
      && index <= end <= index + 60 && end < |lines|
      && Rfind(lines[end], '{') == |Rstrip(lines[end])| - 1 >= 0
      && EndsWith(Rstrip(Signature(lines, index, end)), '{')
      && Rstrip(Signature(lines, index, end))
           == (if end == index then "" else Signature(lines, index, end - 1) + " ") + Rstrip(lines[end])
  {
    hide Excess;
    var end := BodyOf(lines, index, pats).value.0;
    BodyLineIsLeast(lines, index, index, end, pats);
    var line := lines[end];
    if end > index {
      var before := Signature(lines, index, end - 1);
      assert Signature(lines, index, end) == (before + " ") + line;
      RstripAppend(before + " ", line);
      RstripAppend(before, " ");
      assert Fails(lines, index, end - 1, pats);
      assert Rstrip(" ") == "" by { assert " "[..0] == ""; }
    }
    assert EndsWith(Rstrip(line), '{');
    RstripPrefix(line);
    assert line[|Rstrip(line)| - 1] == '{';
    assert forall k :: |Rstrip(line)| <= k < |line| ==> line[k] != '{';
  }

  lemma BraceIsNoSpace()
    ensures !IsSpace('{')
  {
  }

  lemma FirstCloseIs(code: string, opening: nat, k: nat)
    requires IsFirstClose(code, opening, Some(k))
    ensures FirstClose(code, opening, opening) == Some(k)
  {
    hide Depth;
    var r := FirstClose(code, opening, opening);
    assert r.Some? ==> !(r.value < k) && !(k < r.value);
  }

  /**
    The return type is all that stands between the parenthesis that closes the
    parameters and the brace, whatever white space follows the brace.
   */
  lemma ReturnTypeIs(before: string, params: string, returnType: string, white: string, pats: Patterns)
    requires Rstrip(white) == ""
    requires var signature := before + params + returnType + "{" + white;
      && pats.fn(signature) == Some(|before|)
      && params != "" && IsFirstClose(signature, |before|, Some(|before| + |params| - 1))
    ensures ReturnType(before + params + returnType + "{" + white, pats) == Strip(returnType)
  {
    hide Depth, Closes, IsSpace;
    var signature := before + params + returnType + "{" + white;
    var close := |before| + |params| - 1;
    FirstCloseIs(signature, |before|, close);
    assert signature[close + 1..] == (returnType + "{") + white;
    RstripAppend(returnType + "{", white);
    RstripAppend(returnType, "{");
    assert Rstrip("{") == "{" by { BraceIsNoSpace(); }
    assert (returnType + "{")[..|returnType|] == returnType;
  }

  /** Where the pattern or the closing parenthesis is missing, no return type is found. */
  lemma NoReturnType(signature: string, pats: Patterns)
    ensures pats.fn(signature) == None ==> ReturnType(signature, pats) == ""
    ensures pats.fn(signature).Some? && IsFirstClose(signature, pats.fn(signature).value, None) ==>
      ReturnType(signature, pats) == ""
  {
    hide Closes;
    if pats.fn(signature).Some? {
      var r := FirstClose(signature, pats.fn(signature).value, pats.fn(signature).value);
      assert r.Some? ==> Closes(signature, pats.fn(signature).value, r.value);
    }
  }

  /** Number of frames the events push for a function. */
  function TypedFrames(events: seq<Event>): nat {
    if events == [] then 0
    else
      TypedFrames(events[..|events| - 1])
      + (if events[|events| - 1].Open? && events[|events| - 1].frame.Some? then 1 else 0)
  }

  lemma {:induction false} TypedPrefix(line: string, returnType: string, q: nat)
    requires q <= |line| && Rfind(line, '{') >= 0
    ensures TypedFrames(LineEvents(line, Some(returnType))[..q]) == if Rfind(line, '{') < q then 1 else 0
  {
    var events := LineEvents(line, Some(returnType));
    if q > 0 {
      TypedPrefix(line, returnType, q - 1);
      assert events[..q][..q - 1] == events[..q - 1];
    }
  }

  lemma BodyPushesOne(lines: seq<string>, index: nat, pats: Patterns)
    requires index < |lines| && BodyOf(lines, index, pats).Some?
    ensures var (end, returnType) := BodyOf(lines, index, pats).value;
      TypedFrames(LineEvents(lines[end], Some(returnType))) == 1
  {
    hide BodyOf, TypedFrames;
    var (end, returnType) := BodyOf(lines, index, pats).value;
    BodyBrace(lines, index, pats);
    TypedPrefix(lines[end], returnType, |lines[end]|);
    var events := LineEvents(lines[end], Some(returnType));
    assert events[..|lines[end]|] == events;
  }

  /** Every entry of the table of bodies comes from a declaration, and its line pushes exactly one typed frame. */
  lemma {:induction false} OneFrameEach(lines: seq<string>, n: nat, end: nat, pats: Patterns)
    requires n <= |lines| && end in FnOpen(lines, n, pats)
    ensures end < |lines|
    ensures exists i :: 0 <= i < n && LastDeclares(lines, i, n, end, FnOpen(lines, n, pats)[end], pats)
    ensures TypedFrames(LineEvents(lines[end], Some(FnOpen(lines, n, pats)[end]))) == 1
  {
    hide BodyOf, TypedFrames, LineEvents;
    var m := FnOpen(lines, n - 1, pats);
    var last := BodyOf(lines, n - 1, pats);
    if pats.fn(lines[n - 1]).Some? && last.Some? && last.value.0 == end {
      BodyPushesOne(lines, n - 1, pats);
      assert LastDeclares(lines, n - 1, n, end, last.value.1, pats);
    } else {
      OneFrameEach(lines, n - 1, end, pats);
      var i :| 0 <= i < n - 1 && LastDeclares(lines, i, n - 1, end, m[end], pats);
      assert LastDeclares(lines, i, n, end, m[end], pats);
    }
  }

  /** The declaration at line `i` has this body line and type, and no later one before `n` has this body line. */
  predicate LastDeclares(lines: seq<string>, i: nat, n: nat, end: nat, returnType: string, pats: Patterns)
    requires i < n <= |lines|
  {
    && pats.fn(lines[i]).Some?
    && BodyOf(lines, i, pats) == Some((end, returnType))
    && forall j :: i < j < n && pats.fn(lines[j]).Some? ==> !BodyAt(lines, j, end, pats)
  }

  predicate BodyAt(lines: seq<string>, i: nat, end: nat, pats: Patterns)
    requires i < |lines|
  {
    BodyOf(lines, i, pats).Some? && BodyOf(lines, i, pats).value.0 == end
  }

  // ---------------------------------------------------------------- braces

  /** How many braces the events leave open, counting without a stack. */
  function Height(events: seq<Event>): int {
    if events == [] then 0
    else
      Height(events[..|events| - 1]) + Delta(events[|events| - 1])
  }

  function Delta(e: Event): int {
    match e case Open(_) => 1 case Close => -1 case Other => 0
  }

  /** The height of what follows position `p`. */
  function HeightFrom(events: seq<Event>, p: int): int
    requires 0 <= p <= |events|
  {
    Height(events[p..])
  }

  predicate NeverNegative(events: seq<Event>) {
    forall q :: 0 <= q <= |events| ==> Height(events[..q]) >= 0
  }

  /** The brace at position `p` is still open after the events. */
  predicate OpenAt(events: seq<Event>, p: int) {
    0 <= p < |events| && events[p].Open? && forall q :: p < q <= |events| ==> Height(events[p..q]) >= 1
  }

  lemma {:induction false} RunDefined(events: seq<Event>)
    ensures Run(events).Some? <==> NeverNegative(events)
    ensures Run(events).Some? ==> |Run(events).value| == Height(events)
  {
    if events == [] {
      assert events[..0] == [];
    } else {
      var init := events[..|events| - 1];
      RunDefined(init);
      assert forall q :: 0 <= q <= |init| ==> init[..q] == events[..q];
      assert events[..|events|] == events;
      if NeverNegative(events) {
        assert forall q :: 0 <= q <= |init| ==> Height(init[..q]) == Height(events[..q]) >= 0;
      }
    }
  }

  lemma HeightStep(events: seq<Event>, e: Event, p: int)
    requires 0 <= p <= |events|
    ensures HeightFrom(events + [e], p) == HeightFrom(events, p) + Delta(e)
    ensures HeightFrom(events, |events|) == 0
  {
    assert (events + [e])[p..] == events[p..] + [e];
    assert (events[p..] + [e])[..|events| - p] == events[p..];
  }

  lemma OpenStep(events: seq<Event>, e: Event, p: int)
    ensures 0 <= p < |events| ==>
      (OpenAt(events + [e], p) <==> OpenAt(events, p) && HeightFrom(events + [e], p) >= 1)
    ensures OpenAt(events + [e], |events|) <==> e.Open?
  {
    hide Height;
    var all := events + [e];
    if 0 <= p < |events| {
      assert all[p..] == all[p..|all|];
      assert forall q :: p < q <= |events| ==> all[p..q] == events[p..q];
    }
    HeightStep(events, e, |events|);
    assert all[|events|..] == all[|events|..|all|];
  }

  /** The stack lists the frames of exactly the braces still open, outermost first. */
  ghost predicate Lists(events: seq<Event>, stack: Stack, ps: seq<nat>) {
    && |ps| == |stack|
    && (forall i, j :: 0 <= i < j < |ps| ==> ps[i] < ps[j])
    && (forall i :: 0 <= i < |ps| ==> IsEntry(events, ps[i], stack[i], |ps| - i))
    && (forall p :: OpenAt(events, p) ==> p in ps)
  }

  /** Position `p` holds an open brace with this frame, the `depth`-th from the top of the stack. */
  ghost predicate IsEntry(events: seq<Event>, p: nat, frame: Option<string>, depth: int) {
    OpenAt(events, p) && events[p] == Open(frame) && HeightFrom(events, p) == depth
  }

  lemma EntryStep(init: seq<Event>, e: Event, p: nat, frame: Option<string>, depth: int)
    requires IsEntry(init, p, frame, depth)
    ensures depth + Delta(e) >= 1 ==> IsEntry(init + [e], p, frame, depth + Delta(e))
    ensures depth + Delta(e) < 1 ==> !OpenAt(init + [e], p)
  {
    HeightStep(init, e, p);
    OpenStep(init, e, p);
  }

  lemma ListsStep(init: seq<Event>, e: Event, stack: Stack, qs: seq<nat>, next: Stack, ps: seq<nat>)
    requires Lists(init, stack, qs)
    requires match e
      case Open(frame) => next == stack + [frame] && ps == qs + [|init|]
      case Close => stack != [] && next == stack[..|stack| - 1] && ps == qs[..|qs| - 1]
      case Other => next == stack && ps == qs
    ensures Lists(init + [e], next, ps)
  {
    var all := init + [e];
    assert forall i :: 0 <= i < |qs| ==> IsEntry(init, qs[i], stack[i], |qs| - i);
    OpenStep(init, e, |init|);
    HeightStep(init, e, |init|);
    hide HeightFrom;
    OpenBounds(init);
    OpenBounds(all);
    forall i | 0 <= i < |ps| ensures IsEntry(all, ps[i], next[i], |ps| - i) {
      if i < |qs| {
        EntryStep(init, e, qs[i], stack[i], |qs| - i);
      }
    }
    forall p | OpenAt(all, p) ensures p in ps {
      OpenStep(init, e, p);
      if p < |init| {
        var k :| 0 <= k < |qs| && qs[k] == p;
        EntryStep(init, e, qs[k], stack[k], |qs| - k);
        assert ps[k] == p;
      } else {
        assert ps[|qs|] == p;
      }
    }
  }

  lemma {:induction false} StackLists(events: seq<Event>) returns (ps: seq<nat>)
    requires Run(events).Some?
    ensures Lists(events, Run(events).value, ps)
  {
    if events == [] {
      ps := [];
    } else {
      var init, e := events[..|events| - 1], events[|events| - 1];
      assert events == init + [e];
      var qs := StackLists(init);
      RunStep(init, e);
      hide Lists;
      ps := match e case Open(_) => qs + [|init|] case Close => qs[..|qs| - 1] case Other => qs;
      ListsStep(init, e, Run(init).value, qs, Run(events).value, ps);
    }
  }

  lemma OpenBounds(events: seq<Event>)
    ensures forall p :: OpenAt(events, p) ==> 0 <= p < |events| && events[p].Open?
  {
  }

  /** The return type of the innermost typed frame that is open after the events, if any. */
  ghost predicate Innermost(events: seq<Event>, r: Option<string>) {
    match r
    case None => forall p :: OpenAt(events, p) ==> events[p].frame == None
    case Some(t) =>
      exists p :: OpenAt(events, p) && events[p].frame == Some(t)
        && forall q :: p < q && OpenAt(events, q) ==> events[q].frame == None
  }

  lemma {:induction false} EnclosingSplit(stack: Stack) returns (i: nat)
    ensures Enclosing(stack) == None ==> forall j :: 0 <= j < |stack| ==> stack[j] == None
    ensures Enclosing(stack).Some? ==>
      i < |stack| && stack[i] == Enclosing(stack) && forall j :: i < j < |stack| ==> stack[j] == None
  {
    i := 0;
    if stack != [] && stack[|stack| - 1].Some? {
      i := |stack| - 1;
    } else if stack != [] {
      i := EnclosingSplit(stack[..|stack| - 1]);
    }
  }

  lemma EnclosingIsInnermost(events: seq<Event>)
    requires Run(events).Some?
    ensures Innermost(events, Enclosing(Run(events).value))
  {
    hide Run, OpenAt, Height;
    OpenBounds(events);
    var stack := Run(events).value;
    var ps := StackLists(events);
    var i := EnclosingSplit(stack);
    if Enclosing(stack).Some? {
      var p := ps[i];
      forall q | p < q && OpenAt(events, q) ensures events[q].frame == None {
        var j :| 0 <= j < |ps| && ps[j] == q;
      }
      assert OpenAt(events, p);
    } else {
      forall p | OpenAt(events, p) ensures events[p].frame == None {
        var j :| 0 <= j < |ps| && ps[j] == p;
      }
    }
  }

  lemma InnermostUnique(events: seq<Event>, r: Option<string>, s: Option<string>)
    requires Innermost(events, r) && Innermost(events, s)
    ensures r == s
  {
    hide OpenAt;
  }

  // ---------------------------------------------------------------- the scan

  /** The first `n` stripped lines as one text. */
  function Flat(lines: seq<string>, n: nat): string
    requires n <= |lines|
  {
    if n == 0 then "" else Flat(lines, n - 1) + lines[n - 1]
  }

  lemma {:induction false} EventsMatchText(lines: seq<string>, fnOpen: map<nat, string>, n: nat)
    requires n <= |lines|
    ensures var events, text := Events(lines, fnOpen, n), Flat(lines, n);
      && |events| == |text|
      && forall k :: 0 <= k < |text| ==>
           (events[k].Open? <==> text[k] == '{') && (events[k].Close? <==> text[k] == '}')
  {
    if n > 0 {
      EventsMatchText(lines, fnOpen, n - 1);
    }
  }

  lemma {:induction false} HeightIsExcess(events: seq<Event>, text: string)
    requires |events| == |text|
    requires forall k :: 0 <= k < |text| ==>
      (events[k].Open? <==> text[k] == '{') && (events[k].Close? <==> text[k] == '}')
    ensures Height(events) == Excess(text)
  {
    if events != [] {
      HeightIsExcess(events[..|events| - 1], text[..|text| - 1]);
    }
  }

  predicate NeverClosesTooMuch(text: string) {
    forall q :: 0 <= q <= |text| ==> Excess(text[..q]) >= 0
  }

  lemma StackOfText(lines: seq<string>, fnOpen: map<nat, string>, n: nat)
    requires n <= |lines|
    ensures StackAt(lines, fnOpen, n).Some? <==> NeverClosesTooMuch(Flat(lines, n))
    ensures StackAt(lines, fnOpen, n).Some? ==> |StackAt(lines, fnOpen, n).value| == Excess(Flat(lines, n))
  {
    var events, text := Events(lines, fnOpen, n), Flat(lines, n);
    EventsMatchText(lines, fnOpen, n);
    RunDefined(events);
    forall q | 0 <= q <= |text| ensures Height(events[..q]) == Excess(text[..q]) {
      HeightIsExcess(events[..q], text[..q]);
    }
    assert events[..|text|] == events && text[..|text|] == text;
  }

  /** `f` reports line `i`: an `errdefer` whose innermost typed frame cannot return an error. */
  ghost predicate Reports(raw: seq<string>, fnOpen: map<nat, string>, i: int, f: Finding, pats: Patterns) {
    && 0 <= i < |raw|
    && f.line == i + 1 && f.text == Strip(raw[i])
    && pats.errdefer(Stripped(raw[i]))
    && Innermost(Events(StripAll(raw), fnOpen, i), Some(f.returnType))
    && '!' !in f.returnType && f.returnType != "type" && f.returnType != "anyerror"
  }

  /** What the audit promises of a file. */
  ghost predicate Exact(raw: seq<string>, pats: Patterns, r: Result<seq<Finding>, Desync>) {
    var lines := StripAll(raw);
    var fnOpen := FnOpen(lines, |lines|, pats);
    var text := Flat(lines, |lines|);
    && (r.Ok? <==> NeverClosesTooMuch(text) && Excess(text) == 0)
    && (r.Err? && r.error.Unmatched? ==>
          && 1 <= r.error.line <= |lines|
          && NeverClosesTooMuch(Flat(lines, r.error.line - 1)) && !NeverClosesTooMuch(Flat(lines, r.error.line)))
    && (r.Err? && r.error.Unclosed? ==> NeverClosesTooMuch(text) && Excess(text) == r.error.count > 0)
    && (r.Ok? ==>
          && (forall f :: f in r.value <==> ReportedBefore(raw, fnOpen, |raw|, f, pats))
          && Ascending(r.value))
  }

  predicate Ascending(fs: seq<Finding>) {
    forall a, b :: 0 <= a < b < |fs| ==> fs[a].line < fs[b].line
  }

  predicate UpTo(fs: seq<Finding>, n: nat) {
    forall a :: 0 <= a < |fs| ==> fs[a].line <= n
  }

  lemma AscendingAppend(fs: seq<Finding>, n: nat, last: seq<Finding>)
    requires Ascending(fs) && UpTo(fs, n) && |last| <= 1 && forall f :: f in last ==> f.line == n + 1
    ensures Ascending(fs + last) && UpTo(fs + last, n + 1)
  {
    assert |last| == 1 ==> last[0] in last;
  }

  ghost predicate ReportedBefore(raw: seq<string>, fnOpen: map<nat, string>, n: int, f: Finding, pats: Patterns) {
    exists i :: i < n && Reports(raw, fnOpen, i, f, pats)
  }

  lemma ReportedStep(raw: seq<string>, fnOpen: map<nat, string>, n: nat, f: Finding, pats: Patterns)
    ensures ReportedBefore(raw, fnOpen, n + 1, f, pats)
       <==> ReportedBefore(raw, fnOpen, n, f, pats) || Reports(raw, fnOpen, n, f, pats)
    ensures !ReportedBefore(raw, fnOpen, 0, f, pats)
  {
    hide Innermost, Events, Strip;
    if i :| i < n + 1 && Reports(raw, fnOpen, i, f, pats) {
      assert i < n || i == n;
    }
  }

  lemma FindingsStep(raw: seq<string>, fnOpen: map<nat, string>, n: nat, pats: Patterns)
    requires n < |raw| && StackAt(StripAll(raw), fnOpen, n).Some?
    ensures Findings(raw, fnOpen, n + 1, pats)
      == Findings(raw, fnOpen, n, pats)
         + FindingAt(raw[n], StripAll(raw)[n], n, StackAt(StripAll(raw), fnOpen, n).value, pats)
  {
    hide FindingAt, StackAt, StripAll;
  }

  lemma ReportedMore(
    raw: seq<string>, fnOpen: map<nat, string>, n: nat, before: seq<Finding>, last: seq<Finding>, pats: Patterns)
    requires forall f :: f in before <==> ReportedBefore(raw, fnOpen, n, f, pats)
    requires forall f :: f in last <==> Reports(raw, fnOpen, n, f, pats)
    ensures forall f :: f in before + last <==> ReportedBefore(raw, fnOpen, n + 1, f, pats)
  {
    hide ReportedBefore, Reports;
    forall f ensures f in before + last <==> ReportedBefore(raw, fnOpen, n + 1, f, pats) {
      ReportedStep(raw, fnOpen, n, f, pats);
    }
  }

  lemma {:induction false} FindingsReport(raw: seq<string>, fnOpen: map<nat, string>, n: nat, pats: Patterns)
    requires n <= |raw| && forall i :: 0 <= i < n ==> StackAt(StripAll(raw), fnOpen, i).Some?
    ensures forall f :: f in Findings(raw, fnOpen, n, pats) <==> ReportedBefore(raw, fnOpen, n, f, pats)
    ensures Ascending(Findings(raw, fnOpen, n, pats)) && UpTo(Findings(raw, fnOpen, n, pats), n)
  {
    hide ReportedBefore, Reports, Ascending, UpTo, FindingAt, StackAt;
    if n == 0 {
      NothingAscends();
      forall f ensures !ReportedBefore(raw, fnOpen, 0, f, pats) {
        ReportedStep(raw, fnOpen, 0, f, pats);
      }
    } else {
      FindingsReport(raw, fnOpen, n - 1, pats);
      FindingsStep(raw, fnOpen, n - 1, pats);
      hide Findings, StripAll;
      var stack := StackAt(StripAll(raw), fnOpen, n - 1).value;
      var before := Findings(raw, fnOpen, n - 1, pats);
      var last := FindingAt(raw[n - 1], StripAll(raw)[n - 1], n - 1, stack, pats);
      LastReports(raw, fnOpen, n - 1, pats);
      AscendingAppend(before, n - 1, last);
      ReportedMore(raw, fnOpen, n - 1, before, last, pats);
    }
  }

  lemma LastReports(raw: seq<string>, fnOpen: map<nat, string>, i: nat, pats: Patterns)
    requires i < |raw| && StackAt(StripAll(raw), fnOpen, i).Some?
    ensures var last := FindingAt(raw[i], StripAll(raw)[i], i, StackAt(StripAll(raw), fnOpen, i).value, pats);
      && |last| <= 1 && (forall f :: f in last ==> f.line == i + 1)
      && forall f :: f in last <==> Reports(raw, fnOpen, i, f, pats)
  {
    hide Run, Innermost, Strip, Enclosing;
    var events := Events(StripAll(raw), fnOpen, i);
    var stack := Run(events).value;
    EnclosingIsInnermost(events);
    forall f | Reports(raw, fnOpen, i, f, pats)
      ensures Enclosing(stack) == Some(f.returnType)
    {
      InnermostUnique(events, Some(f.returnType), Enclosing(stack));
    }
  }

  lemma NothingAscends()
    ensures Ascending([]) && UpTo([], 0)
  {
  }

  lemma {:induction false} StackEarlier(lines: seq<string>, fnOpen: map<nat, string>, i: nat, n: nat)
    requires i <= n <= |lines| && StackAt(lines, fnOpen, n).Some?
    ensures StackAt(lines, fnOpen, i).Some?
  {
    hide Run;
    if i < n {
      if StackAt(lines, fnOpen, n - 1) == None {
        RunStaysNone(Events(lines, fnOpen, n - 1), LineEvents(lines[n - 1], Get(fnOpen, n - 1)));
      }
      StackEarlier(lines, fnOpen, i, n - 1);
    }
  }

  /**
    The scan fails iff the stripped braces are unbalanced, naming the first line that
    closes too much or the number left open, and otherwise reports precisely, in order,
    the `errdefer`s whose innermost typed frame cannot return an error.
   */
  lemma ScanIsExact(raw: seq<string>, pats: Patterns, r: Result<seq<Finding>, Desync>)
    requires Outcome(raw, pats, r)
    ensures Exact(raw, pats, r)
  {
    hide Stripped, Reports, Findings, NeverClosesTooMuch, Excess, StackAt, ReportedBefore, Ascending, UpTo;
    hide FnOpen, Flat;
    var lines := StripAll(raw);
    var fnOpen := FnOpen(lines, |lines|, pats);
    StackOfText(lines, fnOpen, |lines|);
    match r
    case Ok(findings) =>
      forall i | 0 <= i < |lines| ensures StackAt(lines, fnOpen, i).Some? {
        StackEarlier(lines, fnOpen, i, |lines|);
      }
      FindingsReport(raw, fnOpen, |raw|, pats);
    case Err(Unmatched(n)) =>
      StackOfText(lines, fnOpen, n - 1);
      StackOfText(lines, fnOpen, n);
      if StackAt(lines, fnOpen, |lines|).Some? {
        StackEarlier(lines, fnOpen, n, |lines|);
      }
    case Err(Unclosed(k)) =>
  }
}
